/** The tail buffer that keeps the end of the engine's standard error. */
module BoundedBuffer {
  type Byte = char

  const DEFAULT_LIMIT: nat := 64 * 1024

  function Tail(s: seq<Byte>, limit: nat): seq<Byte> {
    if |s| <= limit then s else s[|s| - limit..]
  }

  /** Cutting before or after more arrives makes no difference. */
  lemma TailOfTail(s: seq<Byte>, p: seq<Byte>, limit: nat)
    ensures Tail(Tail(s, limit) + p, limit) == Tail(s + p, limit)
    ensures |p| >= limit ==> Tail(s + p, limit) == p[|p| - limit..]
  {}

  class Buffer {
    const limit: nat
    const data: array<Byte>
    var length: nat
    var truncated: bool
    ghost var written: seq<Byte>
    ghost var flooded: bool

    ghost predicate Valid()
      reads this, data
    {
      && 0 < limit == data.Length
      && length <= limit
      && data[..length] == Tail(written, limit)
      && (truncated <==> flooded || |written| > limit)
      && (flooded ==> |written| >= limit)
    }

    constructor (limit: int)
      ensures Valid() && written == [] && !truncated && !flooded
      ensures this.limit == if limit <= 0 then DEFAULT_LIMIT else limit
      ensures fresh(data)
    {
      var n := if limit <= 0 then DEFAULT_LIMIT else limit;
      this.limit := n;
      data := new Byte[n];
      length, truncated := 0, false;
      written, flooded := [], false;
    }

    method Write(p: seq<Byte>) returns (n: nat)
      requires Valid()
      modifies this`length, this`truncated, this`written, this`flooded, data
      ensures Valid() && n == |p|
      ensures written == old(written) + p
      ensures flooded == (old(flooded) || |p| >= limit)
      ensures data[..length] == Tail(old(written) + p, limit)
      ensures |written| > length ==> truncated
      ensures truncated ==> |written| >= limit
    {
      TailOfTail(written, p, limit);
      n := |p|;
      written, flooded := written + p, flooded || |p| >= limit;
      if |p| >= limit {
        Replace(p);
      } else {
        Extend(p);
      }
    }

    /** A write at least as long as the limit: only its end stays. */
    method Replace(p: seq<Byte>)
      requires limit == data.Length <= |p|
      modifies this`length, this`truncated, data
      ensures length == limit && truncated
      ensures data[..length] == p[|p| - limit..]
    {
      Store(0, p[|p| - limit..]);
      length, truncated := limit, true;
    }

    /** A shorter write: room first, then the bytes. */
    method Extend(p: seq<Byte>)
      requires length <= limit == data.Length && |p| < limit
      modifies this`length, this`truncated, data
      ensures length <= limit
      ensures data[..length] == Tail(old(data[..length]) + p, limit)
      ensures truncated <==> old(truncated) || old(length) + |p| > limit
    {
      ghost var before := data[..length];
      MakeRoom(|p|);
      Append(p);
      assert data[..length] == Tail(before + p, limit);
    }

    /** Drop the oldest bytes if what comes does not fit. */
    method MakeRoom(incoming: nat)
      requires length <= limit == data.Length && incoming < limit
      modifies this`length, this`truncated, data
      ensures length <= limit && length + incoming <= limit
      ensures var before := old(data[..length]);
              data[..length] == if |before| + incoming > limit then before[|before| + incoming - limit..] else before
      ensures truncated <==> old(truncated) || old(length) + incoming > limit
    {
      if length + incoming > limit {
        var overflow := length + incoming - limit;
        Shift(overflow);
        length, truncated := length - overflow, true;
      }
    }

    method Append(p: seq<Byte>)
      requires length + |p| <= limit == data.Length
      modifies this`length, data
      ensures length == old(length) + |p|
      ensures data[..length] == old(data[..length]) + p
    {
      Store(length, p);
      assert data[..length + |p|] == data[..length] + data[length..length + |p|];
      length := length + |p|;
    }

    /** Copy bytes into the buffer from a position on. */
    method Store(start: nat, p: seq<Byte>)
      requires start + |p| <= data.Length
      modifies data
      ensures data[..start] == old(data[..start])
      ensures data[start..start + |p|] == p
    {
      for i := 0 to |p|
        invariant data[..start] == old(data[..start])
        invariant data[start..start + i] == p[..i]
      {
        data[start + i] := p[i];
        assert data[start..start + i + 1] == data[start..start + i] + [p[i]];
      }
      assert p[..|p|] == p;
    }

    /** Move the bytes in use to the front, over the oldest ones. */
    method Shift(overflow: nat)
      requires overflow <= length <= data.Length
      modifies data
      ensures data[..length - overflow] == old(data[..length])[overflow..]
    {
      for i := 0 to length - overflow
        invariant forall k :: 0 <= k < i ==> data[k] == old(data[k + overflow])
        invariant forall k :: i <= k < data.Length ==> data[k] == old(data[k])
      {
        data[i] := data[i + overflow];
      }
    }

    /** What is shown: a marker if bytes may be missing, then the end of everything written. */
    method String() returns (s: seq<Byte>)
      requires Valid()
      ensures s == (if truncated then "[stderr truncated]\n" else "") + Tail(written, limit)
      ensures |written| > limit ==> truncated
      ensures !truncated ==> s == written
    {
      s := if truncated then "[stderr truncated]\n" + data[..length] else data[..length];
    }
  }
}
