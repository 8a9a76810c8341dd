/** Bytes, byte sequences and C strings. */
module Bytes {

  /** The source's `u8`. */
  type byte = b: int | 0 <= b < 256

  type bytes = seq<byte>

  datatype Option<+T> = None | Some(value: T) {

    predicate IsFailure() {
      None?
    }

    function PropagateFailure<U>(): Option<U>
      requires None?
    {
      None
    }

    function Extract(): T
      requires Some?
    {
      value
    }
  }

  /** A C string holds no NUL before its terminator. */
  predicate NulFree(s: bytes) {
    forall i :: 0 <= i < |s| ==> s[i] != 0
  }

  /** What `strlen` and `strcmp` see of a NUL-terminated buffer: everything before the first NUL. */
  function CStr(s: bytes): (r: bytes)
    ensures NulFree(r) && |r| <= |s|
    ensures r == s[..|r|]
    ensures |r| < |s| ==> s[|r|] == 0
    ensures NulFree(s) ==> r == s
  {
    if s == [] || s[0] == 0 then [] else [s[0]] + CStr(s[1..])
  }
}
