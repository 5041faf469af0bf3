/** The two kinds of .NET stream the store works on, the database file and a sector's in-memory
    buffer, as a byte sequence with a cursor. Seeking past the end is allowed; writing there fills
    the gap with zero bytes; reading stops at the end. */
module Streams {
  import opened Bytes
  import opened Wrappers

  function Zeros(n: nat): (z: seq<byte>)
    ensures |z| == n
    ensures forall i :: 0 <= i < n ==> z[i] == 0
  {
    if n == 0 then [] else Zeros(n - 1) + [0]
  }

  /** The content after writing `bytes` at position `p`: the gap before `p` (if any) is zero-filled
      and the stream grows when the write runs past the end. */
  function Overwrite(data: seq<byte>, p: nat, bytes: seq<byte>): (r: seq<byte>)
    ensures |r| == if p + |bytes| > |data| then p + |bytes| else |data|
    ensures forall i :: 0 <= i < p && i < |data| ==> r[i] == data[i]
    ensures forall i :: |data| <= i < p ==> r[i] == 0
    ensures forall i :: 0 <= i < |bytes| ==> r[p + i] == bytes[i]
    ensures forall i :: p + |bytes| <= i < |data| ==> r[i] == data[i]
  {
    var prefix := if p <= |data| then data[..p] else data + Zeros(p - |data|);
    var suffix := if p + |bytes| < |data| then data[p + |bytes|..] else [];
    prefix + bytes + suffix
  }

  /** Writing over bytes that are all inside the stream is a splice. */
  lemma OverwriteInside(data: seq<byte>, p: nat, bytes: seq<byte>)
    requires p + |bytes| <= |data|
    ensures Overwrite(data, p, bytes) == data[..p] + bytes + data[p + |bytes|..]
  {
    var r := Overwrite(data, p, bytes);
    var s := data[..p] + bytes + data[p + |bytes|..];
    assert |r| == |s|;
    forall i | 0 <= i < |r|
      ensures r[i] == s[i]
    {
      if i < p {
      } else if i < p + |bytes| {
        assert r[p + (i - p)] == bytes[i - p];
      } else {
      }
    }
  }

  /** Writing at the end appends. */
  lemma OverwriteAtEnd(data: seq<byte>, bytes: seq<byte>)
    ensures Overwrite(data, |data|, bytes) == data + bytes
  {
  }

  /** Two consecutive writes are one write of the concatenation. */
  lemma OverwriteConcat(data: seq<byte>, p: nat, a: seq<byte>, b: seq<byte>)
    ensures Overwrite(Overwrite(data, p, a), p + |a|, b) == Overwrite(data, p, a + b)
  {
    var one := Overwrite(data, p, a);
    var two := Overwrite(one, p + |a|, b);
    var direct := Overwrite(data, p, a + b);
    assert |two| == |direct|;
    forall i | 0 <= i < |two|
      ensures two[i] == direct[i]
    {
      if p <= i < p + |a| {
        assert one[p + (i - p)] == a[i - p];
        assert direct[p + (i - p)] == (a + b)[i - p];
      } else if p + |a| <= i < p + |a| + |b| {
        assert two[p + |a| + (i - p - |a|)] == b[i - p - |a|];
        assert direct[p + (i - p)] == (a + b)[i - p];
      }
    }
  }

  /** Writing back the bytes already at `p` changes nothing. */
  lemma OverwriteSame(data: seq<byte>, p: nat, bytes: seq<byte>)
    requires p + |bytes| <= |data| && bytes == data[p..p + |bytes|]
    ensures Overwrite(data, p, bytes) == data
  {
    OverwriteInside(data, p, bytes);
    assert data[..p] + data[p..p + |bytes|] + data[p + |bytes|..] == data;
  }

  /** How many bytes `Read(buffer, 0, count)` delivers from position `p` of a stream of `size` bytes. */
  function ReadCount(size: int, p: int, count: int): (n: int)
    requires count >= 0
    ensures 0 <= n <= count
    ensures p < size ==> n == if count <= size - p then count else size - p
    ensures p >= size ==> n == 0
  {
    if p >= size then 0 else if count <= size - p then count else size - p
  }

  /** The content after `SetLength(n)`: truncated, or zero-extended. */
  function Resized(data: seq<byte>, n: nat): (r: seq<byte>)
    ensures |r| == n
    ensures forall i :: 0 <= i < n && i < |data| ==> r[i] == data[i]
    ensures forall i :: |data| <= i < n ==> r[i] == 0
  {
    if n <= |data| then data[..n] else data + Zeros(n - |data|)
  }

  class ByteStream {
    var data: seq<byte>
    var position: int

    ghost predicate Valid()
      reads this
    {
      position >= 0
    }

    /** `new MemoryStream()`. */
    constructor()
      ensures Valid() && data == [] && position == 0
    {
      data := [];
      position := 0;
    }

    /** A stream over existing content, positioned at the start. */
    constructor Of(content: seq<byte>)
      ensures Valid() && data == content && position == 0
    {
      data := content;
      position := 0;
    }

    function Length(): (n: nat)
      reads this
      ensures n == |data|
    {
      |data|
    }

    /** `Seek(p, SeekOrigin.Begin)`: a negative position throws an IOException. */
    method Seek(p: int) returns (r: Outcome)
      requires Valid()
      modifies this
      ensures Valid() && data == old(data)
      ensures r.Pass? <==> p >= 0
      ensures r.Pass? ==> position == p
      ensures r.Fail? ==> r.error == IOError && position == old(position)
    {
      if p < 0 {
        return Fail(IOError);
      }
      position := p;
      return Pass;
    }

    /** `Seek(0, SeekOrigin.End)`. */
    method SeekEnd()
      requires Valid()
      modifies this
      ensures Valid() && data == old(data) && position == |data|
    {
      position := |data|;
    }

    /** `Seek(delta, SeekOrigin.Current)`. */
    method SeekCurrent(delta: int) returns (r: Outcome)
      requires Valid()
      modifies this
      ensures Valid() && data == old(data)
      ensures r.Pass? <==> old(position) + delta >= 0
      ensures r.Pass? ==> position == old(position) + delta
      ensures r.Fail? ==> r.error == IOError && position == old(position)
    {
      if position + delta < 0 {
        return Fail(IOError);
      }
      position := position + delta;
      return Pass;
    }

    /** `Read(buffer, 0, count)`: up to `count` bytes from the cursor; fewer at the end, none past
        it. A negative count throws. */
    method Read(count: int) returns (r: Result<seq<byte>>)
      requires Valid()
      modifies this
      ensures Valid() && data == old(data)
      ensures r.Success? <==> count >= 0
      ensures r.Success? ==>
        var n := ReadCount(|data|, old(position), count);
        && |r.value| == n
        && (n > 0 ==> r.value == data[old(position)..old(position) + n])
        && position == old(position) + n
      ensures r.Failure? ==> r.error == ArgumentError && position == old(position)
    {
      if count < 0 {
        return Failure(ArgumentError);
      }
      var n := ReadCount(|data|, position, count);
      r := Success(if n == 0 then [] else data[position..position + n]);
      position := position + n;
    }

    /** `Write(bytes, 0, bytes.Length)`. */
    method Write(bytes: seq<byte>)
      requires Valid()
      modifies this
      ensures Valid()
      ensures data == Overwrite(old(data), old(position), bytes)
      ensures position == old(position) + |bytes|
    {
      data := Overwrite(data, position, bytes);
      position := position + |bytes|;
    }

    /** `SetLength(n)`: a negative length throws; the cursor is pulled back to the new end. */
    method SetLength(n: int) returns (r: Outcome)
      requires Valid()
      modifies this
      ensures Valid()
      ensures r.Pass? <==> n >= 0
      ensures r.Pass? ==> data == Resized(old(data), n)
      ensures r.Pass? ==> position == if old(position) > n then n else old(position)
      ensures r.Fail? ==> r.error == ArgumentError && data == old(data) && position == old(position)
    {
      if n < 0 {
        return Fail(ArgumentError);
      }
      data := Resized(data, n);
      if position > n {
        position := n;
      }
      return Pass;
    }

    /** `MemoryStream.WriteTo(dest)`: the whole content, whatever the cursor. */
    method WriteTo(dest: ByteStream)
      requires Valid() && dest.Valid() && dest != this
      modifies dest
      ensures dest.Valid()
      ensures dest.data == Overwrite(old(dest.data), old(dest.position), data)
      ensures dest.position == old(dest.position) + |data|
    {
      dest.Write(data);
    }
  }
}
