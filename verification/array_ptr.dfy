/**
 * `ArrayPtr`: a single-owner handle over one heap array, or over none.
 *
 * Ownership is modelled as which handle's `raw` field references which array:
 * "owns nothing" is `null`, an allocation is a `fresh` array. Elements are
 * `int`s, whose value-initialisation (`Type{}`) is 0.
 */
module Ownership {

  /** The value a value-initialised element takes. */
  const Default: int := 0

  /** `n` value-initialised elements. */
  function Defaults(n: nat): (s: seq<int>)
    ensures |s| == n
    ensures forall i :: 0 <= i < n ==> s[i] == Default
  {
    seq(n, _ => Default)
  }

  class ArrayPtr {
    /** The owned buffer; `null` when the handle owns nothing. */
    var raw: array?<int>

    /** A handle that owns nothing. */
    constructor ()
      ensures raw == null
    {
      raw := null;
    }

    /** Allocates `size` value-initialised elements; allocates nothing for 0. */
    constructor Sized(size: nat)
      ensures size == 0 ==> raw == null
      ensures size > 0 ==> raw != null && fresh(raw) && raw.Length == size
      ensures raw != null ==> raw[..] == Defaults(size)
    {
      if size > 0 {
        raw := new int[size](_ => Default);
      } else {
        raw := null;
      }
    }

    /** Adopts the given buffer, which may be `null`. */
    constructor FromRaw(rawPtr: array?<int>)
      ensures raw == rawPtr
    {
      raw := rawPtr;
    }

    /** Move construction: takes `other`'s buffer and leaves `other` empty. */
    constructor Move(other: ArrayPtr)
      modifies other
      ensures raw == old(other.raw)
      ensures other.raw == null
    {
      raw := other.raw;
      new;
      other.raw := null;
    }

    /** Move assignment, written as an exchange: `this` receives `rhs`'s
        buffer and `rhs` receives `this`'s. Moving a handle onto itself
        therefore changes nothing. */
    method MoveAssign(rhs: ArrayPtr)
      modifies this, rhs
      ensures raw == old(rhs.raw)
      ensures rhs.raw == old(raw)
      ensures rhs == this ==> raw == old(raw)
    {
      var previous := rhs.raw;
      rhs.raw := raw;
      raw := previous;
    }

    /** Gives up ownership: returns the buffer and leaves the handle empty. */
    method Release() returns (released: array?<int>)
      modifies this
      ensures released == old(raw)
      ensures raw == null
    {
      released := raw;
      raw := null;
    }

    /** `operator[]`, read: no bounds check in the handle, so the caller must
        supply an index inside the owned buffer. */
    method Read(index: nat) returns (x: int)
      requires raw != null && index < raw.Length
      ensures x == raw[index]
    {
      x := raw[index];
    }

    /** `operator[]`, write through the returned reference. */
    method Write(index: nat, x: int)
      requires raw != null && index < raw.Length
      modifies raw
      ensures raw[..] == old(raw[..])[index := x]
    {
      raw[index] := x;
    }

    /** `operator bool`: whether a buffer is owned. */
    method IsOwning() returns (owning: bool)
      ensures owning <==> raw != null
    {
      if raw == null {
        owning := false;
      } else {
        owning := true;
      }
    }

    /** The owned buffer, without giving up ownership. */
    method Get() returns (p: array?<int>)
      ensures p == raw
    {
      p := raw;
    }

    /** Exchanges the buffers of two handles; no element is touched. */
    method Swap(other: ArrayPtr)
      modifies this, other
      ensures raw == old(other.raw)
      ensures other.raw == old(raw)
    {
      var mine := raw;
      raw := other.raw;
      other.raw := mine;
    }
  }
}
