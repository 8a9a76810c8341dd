/** TinyCBOR's read cursor: it advances in place, and entering a container makes a cursor for its items. */
module CborParser {
  import opened Bytes
  import opened Cbor

  class CborValue {
    /** The bytes ahead, and how many items of the enclosing container are left. */
    var rest: bytes
    var left: nat

    function View(): Cur
      reads this
    {
      Cur(rest, left)
    }

    constructor (c: Cur)
      ensures View() == c
    {
      rest, left := c.rest, c.left;
    }

    method TakeUInt() returns (r: Option<nat>)
      modifies this
      ensures ReadUInt(old(View())) == if r.Some? then Some((r.value, View())) else None
    {
      var h :- PeekHead(View());
      if h.major != 0 { return None; }
      rest, left := h.rest, left - 1;
      return Some(h.arg);
    }

    method TakeInt() returns (r: Option<int>)
      modifies this
      ensures ReadInt(old(View())) == if r.Some? then Some((r.value, View())) else None
    {
      var h :- PeekHead(View());
      if h.major > 1 || h.arg > INT_MAX { return None; }
      rest, left := h.rest, left - 1;
      return Some(if h.major == 0 then h.arg else -1 - h.arg);
    }

    method TakeString(major: nat) returns (r: Option<bytes>)
      modifies this
      ensures ReadString(old(View()), major) == if r.Some? then Some((r.value, View())) else None
    {
      var h :- PeekHead(View());
      if h.major != major || h.arg > |h.rest| { return None; }
      rest, left := h.rest[h.arg..], left - 1;
      return Some(h.rest[..h.arg]);
    }

    method TakeBytes() returns (r: Option<bytes>)
      modifies this
      ensures ReadBytes(old(View())) == if r.Some? then Some((r.value, View())) else None
    {
      r := TakeString(2);
    }

    method TakeText() returns (r: Option<bytes>)
      modifies this
      ensures ReadText(old(View())) == if r.Some? then Some((r.value, View())) else None
    {
      r := TakeString(3);
    }

    method EnterArray() returns (n: Option<nat>, child: CborValue)
      ensures fresh(child)
      ensures Cbor.EnterArray(View()) == if n.Some? then Some((n.value, child.View())) else None
    {
      child := new CborValue(View());
      var h := PeekHead(View());
      if h.None? || h.value.major != 4 { return None, child; }
      child := new CborValue(Cur(h.value.rest, h.value.arg));
      n := Some(h.value.arg);
    }

    method EnterMap() returns (n: Option<nat>, child: CborValue)
      ensures fresh(child)
      ensures Cbor.EnterMap(View()) == if n.Some? then Some((n.value, child.View())) else None
    {
      child := new CborValue(View());
      var h := PeekHead(View());
      if h.None? || h.value.major != 5 { return None, child; }
      child := new CborValue(Cur(h.value.rest, 2 * h.value.arg));
      n := Some(h.value.arg);
    }

    /** Goes on behind the container whose items `child` has read. */
    method Leave(child: CborValue)
      requires left > 0 && child != this
      modifies this
      ensures View() == Cbor.Leave(old(View()), child.View())
    {
      rest, left := child.rest, left - 1;
    }

    /** Skips one item of any kind. */
    method Skip() returns (r: Option<()>)
      modifies this
      ensures Advance(old(View())) == if r.Some? then Some(View()) else None
    {
      var c :- Advance(View());
      rest, left := c.rest, c.left;
      return Some(());
    }
  }
}
