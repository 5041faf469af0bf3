/** The slot engine of every query (`BaseQuery<T>`): the payload of a sector, held in its
    in-memory buffer, is a run of slots laid out in directory order; a slot's offset is the sum of
    the lengths before it. Writes splice the buffer, removes cut it, and a per-query cache keeps
    decoded values. */
module BaseQueries {
  import opened Wrappers
  import opened Bytes
  import opened Codec
  import opened SlotDirectory
  import opened Streams
  import opened Records
  import opened Sectors

  /** The chunk size of the buffer's block-copy loops. */
  const QUERY_BLOCK_SIZE: nat := 4096

  /** The bytes one `Read(bytes, 0, bytes.Length)` of a whole block delivers from position `p`. */
  function Chunk(f: seq<byte>, p: int): (c: seq<byte>)
    requires p >= 0
    ensures |c| == ReadCount(|f|, p, QUERY_BLOCK_SIZE)
  {
    var n := ReadCount(|f|, p, QUERY_BLOCK_SIZE);
    if n == 0 then [] else f[p..p + n]
  }

  /** The do-while block-copy loop of `Write` and `TryRemove`, with the cursor at `p` and `left`
      bytes still to copy: read a block, seek back by `gap` plus what was read, write it there,
      and go on while bytes are left. The next read resumes where the write stopped, so only a
      tail that fits in one block lands `gap` bytes earlier. A seek before the start throws. */
  function Copied(f: seq<byte>, p: int, left: int, gap: int): (r: Step)
    requires 0 <= gap && 0 <= p && p + left <= |f|
    ensures r.position >= 0
    decreases if left > 0 then left else 0
  {
    var c := Chunk(f, p);
    if p - gap < 0 then Step(Fail(IOError), f, p + |c|)
    else
      var g := Overwrite(f, p - gap, c);
      if left - |c| > 0 then Copied(g, p - gap + |c|, left - |c|, gap)
      else Step(Pass, g, p - gap + |c|)
  }

  /** When the tail after a slot fits in one block, the loop moves it `gap` bytes back, over the
      slot, and leaves the cursor after it. */
  lemma CopiedOneBlock(f: seq<byte>, off: int, gap: int)
    requires 0 <= off && 0 <= gap && off + gap <= |f| && |f| - off - gap <= QUERY_BLOCK_SIZE
    ensures Copied(f, off + gap, |f| - off - gap, gap)
      == Step(Pass, f[..off] + f[off + gap..] + f[|f| - gap..], |f| - gap)
  {
    var c := Chunk(f, off + gap);
    assert c == f[off + gap..];
    OverwriteInside(f, off, c);
  }

  /** With a zero gap every pass writes back the bytes it read: the buffer is unchanged and the
      cursor ends at its end. */
  lemma {:induction false} CopiedInPlace(f: seq<byte>, p: int, left: int)
    requires 0 <= p && 0 <= left && p + left == |f|
    ensures Copied(f, p, left, 0) == Step(Pass, f, |f|)
    decreases left
  {
    var c := Chunk(f, p);
    if |c| > 0 {
      OverwriteSame(f, p, c);
    } else {
      assert Overwrite(f, p, c) == f;
    }
    if left - |c| > 0 {
      CopiedInPlace(f, p + |c|, left - |c|);
    }
  }

  // ---------------------------------------------------------------- splicing a slot

  /** The buffer is laid out by the directory: every length is non-negative and the slots fill
      the buffer exactly. */
  predicate Laid(buf: seq<byte>, lens: seq<int>)
  {
    (forall i :: 0 <= i < |lens| ==> lens[i] >= 0) && |buf| == Sum(lens)
  }

  /** The buffer, its cursor and the directory after a write. */
  datatype Spliced = Spliced(outcome: Outcome, buffer: seq<byte>, position: int, keys: seq<int>, lens: seq<int>)

  /** `Write(index, obj)` on the buffer `buf` (cursor at `pos`) and the directory `keys`/`lens`:
      an absent index is appended at the end; a slot of the same length is overwritten where it
      is; otherwise the bytes after the slot are copied back over it, the buffer is cut when the
      slot shrank, and the new bytes go after the copy with the entry pushed to the end. */
  function Splice(buf: seq<byte>, pos: int, keys: seq<int>, lens: seq<int>, index: int, obj: seq<byte>): Spliced
    requires |keys| == |lens|
    requires index in keys ==> lens[IndexOf(keys, index)] >= 0
  {
    var i := IndexOf(keys, index);
    if i == -1 then Spliced(Pass, Overwrite(buf, |buf|, obj), |buf| + |obj|, keys + [index], lens + [|obj|])
    else
      var gap, off := lens[i], SlotOffset(keys, lens, index);
      if |obj| == gap then
        if off < 0 then Spliced(Fail(IOError), buf, pos, keys, lens)
        else Spliced(Pass, Overwrite(buf, off, obj), off + |obj|, keys, lens)
      else if off + gap < 0 then Spliced(Fail(IOError), buf, pos, keys, lens)
      else Resize(buf, keys, lens, index, obj, gap, off)
  }

  /** A write that changes the length of the slot at `off`: the bytes after it are copied back
      `gap` bytes, then the write goes on with `Reappended` unless the copy threw. */
  function Resize(buf: seq<byte>, keys: seq<int>, lens: seq<int>, index: int, obj: seq<byte>, gap: int, off: int): Spliced
    requires |keys| == |lens| && 0 <= gap && 0 <= off + gap
  {
    var c := Copied(buf, off + gap, |buf| - off - gap, gap);
    if c.outcome.Fail? then Spliced(c.outcome, c.file, c.position, keys, lens)
    else Reappended(c.file, c.position, keys, lens, index, obj, gap)
  }

  /** The end of the size-changing write, after the copy left buffer `g` with the cursor at `at`:
      `SetLength(Length + diff)` when the slot shrank, then the bytes, then `PushToEnd`. */
  function Reappended(g: seq<byte>, at: nat, keys: seq<int>, lens: seq<int>, index: int, obj: seq<byte>, gap: int): Spliced
    requires |keys| == |lens|
  {
    var diff := |obj| - gap;
    var n := |g| + diff;
    if diff < 0 && n < 0 then Spliced(Fail(ArgumentError), g, at, keys, lens)
    else
      var h := if diff < 0 then Resized(g, n) else g;
      var p := if diff < 0 && at > n then n else at;
      var pushed := PushedToEnd(keys, lens, index, |obj|);
      Spliced(Pass, Overwrite(h, p, obj), p + |obj|, pushed.0, pushed.1)
  }

  /** The slot of a present key lies inside a laid-out buffer, and removing its length takes it
      off the total. */
  lemma SlotBounds(keys: seq<int>, lens: seq<int>, index: int)
    requires |keys| == |lens| && index in keys
    requires forall i :: 0 <= i < |lens| ==> lens[i] >= 0
    ensures var i := IndexOf(keys, index);
      && 0 <= SlotOffset(keys, lens, index)
      && SlotOffset(keys, lens, index) + lens[i] <= Sum(lens)
      && Sum(RemoveAt(lens, i)) == Sum(lens) - lens[i]
  {
    var i := IndexOf(keys, index);
    SlotOffsetIsPrefixSum(keys, lens, index);
    SumRemoveAt(lens, i);
    SumNonNegative(lens[..i]);
    SumNonNegative(lens[i + 1..]);
  }

  /** Taking one length out takes it off the total. */
  lemma SumRemoveAt(lens: seq<int>, i: int)
    requires 0 <= i < |lens|
    ensures Sum(RemoveAt(lens, i)) == Sum(lens) - lens[i]
    ensures Sum(lens) == Sum(lens[..i]) + lens[i] + Sum(lens[i + 1..])
  {
    var before, x, after := lens[..i], lens[i], lens[i + 1..];
    assert lens == before + [x] + after;
    assert RemoveAt(lens, i) == before + after;
    SumAppend(before + [x], after);
    SumAppend(before, [x]);
    SumAppend(before, after);
    assert Sum([x]) == x by {
      assert [x][..0] == [];
    }
  }

  /** Writing an absent index appends the bytes at the end of the buffer and adds its entry
      last. */
  lemma SpliceAppends(buf: seq<byte>, pos: int, keys: seq<int>, lens: seq<int>, index: int, obj: seq<byte>)
    requires |keys| == |lens| && index !in keys
    ensures Splice(buf, pos, keys, lens, index, obj)
      == Spliced(Pass, buf + obj, |buf| + |obj|, keys + [index], lens + [|obj|])
  {
    OverwriteAtEnd(buf, obj);
  }

  /** Writing as many bytes as the slot holds overwrites them where they are; the directory does
      not change. */
  lemma SpliceInPlace(buf: seq<byte>, pos: int, keys: seq<int>, lens: seq<int>, index: int, obj: seq<byte>)
    requires |keys| == |lens| && Laid(buf, lens) && index in keys
    requires |obj| == lens[IndexOf(keys, index)]
    ensures var off := SlotOffset(keys, lens, index);
      && 0 <= off && off + |obj| <= |buf|
      && Splice(buf, pos, keys, lens, index, obj)
         == Spliced(Pass, buf[..off] + obj + buf[off + |obj|..], off + |obj|, keys, lens)
  {
    SlotBounds(keys, lens, index);
    OverwriteInside(buf, SlotOffset(keys, lens, index), obj);
  }

  /** Writing a slot of another length, when the bytes after it fit in one block or the slot was
      empty: the slot is cut out, the new bytes go to the end of the buffer, and the entry moves to
      the end of the directory with its new length. */
  lemma SpliceMoves(buf: seq<byte>, pos: int, keys: seq<int>, lens: seq<int>, index: int, obj: seq<byte>, off: int, gap: int)
    requires |keys| == |lens| && Laid(buf, lens) && index in keys
    requires gap == lens[IndexOf(keys, index)] && off == SlotOffset(keys, lens, index)
    requires |obj| != gap && (|buf| - off - gap <= QUERY_BLOCK_SIZE || gap == 0)
    ensures 0 <= off && off + gap <= |buf|
    ensures Splice(buf, pos, keys, lens, index, obj)
      == Spliced(Pass, buf[..off] + buf[off + gap..] + obj, |buf| - gap + |obj|,
                 PushedToEnd(keys, lens, index, |obj|).0, PushedToEnd(keys, lens, index, |obj|).1)
  {
    SlotBounds(keys, lens, index);
    SpliceIsResize(buf, pos, keys, lens, index, obj);
    ResizeKeeps(buf, keys, lens, index, obj, gap, off);
  }

  /** A size-changing write to a slot that lies inside the buffer is a `Resize`. */
  lemma SpliceIsResize(buf: seq<byte>, pos: int, keys: seq<int>, lens: seq<int>, index: int, obj: seq<byte>)
    requires |keys| == |lens| && index in keys
    requires var gap := lens[IndexOf(keys, index)];
      0 <= gap != |obj| && 0 <= SlotOffset(keys, lens, index)
    ensures Splice(buf, pos, keys, lens, index, obj)
      == Resize(buf, keys, lens, index, obj, lens[IndexOf(keys, index)], SlotOffset(keys, lens, index))
  {
  }

  /** `Resize` with a one-block tail or an empty slot: the slot is cut out and the bytes go
      last. */
  lemma ResizeKeeps(buf: seq<byte>, keys: seq<int>, lens: seq<int>, index: int, obj: seq<byte>, gap: int, off: int)
    requires |keys| == |lens| && 0 <= off && 0 <= gap != |obj| && off + gap <= |buf|
    requires |buf| - off - gap <= QUERY_BLOCK_SIZE || gap == 0
    ensures var pushed := PushedToEnd(keys, lens, index, |obj|);
      Resize(buf, keys, lens, index, obj, gap, off)
      == Spliced(Pass, buf[..off] + buf[off + gap..] + obj, |buf| - gap + |obj|, pushed.0, pushed.1)
  {
    var kept := buf[..off] + buf[off + gap..];
    var tail := CopiedKeeps(buf, off, gap);
    ResizeAfterCopy(buf, keys, lens, index, obj, gap, off, Step(Pass, kept + tail, |kept|));
    ReappendedAfterCopy(kept, tail, keys, lens, index, obj);
  }

  /** A `Resize` whose copy passed goes on with `Reappended`; one whose copy threw stops there. */
  lemma ResizeAfterCopy(buf: seq<byte>, keys: seq<int>, lens: seq<int>, index: int, obj: seq<byte>, gap: int, off: int, c: Step)
    requires |keys| == |lens| && 0 <= gap && 0 <= off + gap
    requires c == Copied(buf, off + gap, |buf| - off - gap, gap)
    ensures c.outcome == Pass ==>
      Resize(buf, keys, lens, index, obj, gap, off) == Reappended(c.file, c.position, keys, lens, index, obj, gap)
    ensures c.outcome.Fail? ==>
      Resize(buf, keys, lens, index, obj, gap, off) == Spliced(c.outcome, c.file, c.position, keys, lens)
  {
  }

  /** When the bytes after a slot fit in one block, or the slot is empty, the copy puts
      everything but the slot before the cursor and leaves `gap` bytes of tail after it. */
  lemma CopiedKeeps(buf: seq<byte>, off: int, gap: int) returns (tail: seq<byte>)
    requires 0 <= off && 0 <= gap && off + gap <= |buf|
    requires |buf| - off - gap <= QUERY_BLOCK_SIZE || gap == 0
    ensures |tail| == gap
    ensures Copied(buf, off + gap, |buf| - off - gap, gap) == Step(Pass, buf[..off] + buf[off + gap..] + tail, |buf| - gap)
  {
    if gap == 0 {
      CopiedInPlace(buf, off, |buf| - off);
      tail := [];
      assert buf[..off] + buf[off..] + [] == buf;
    } else {
      CopiedOneBlock(buf, off, gap);
      tail := buf[|buf| - gap..];
    }
  }

  /** The end of the size-changing write when the cursor sits after `kept` and the `tail` after
      it is about to be replaced: the buffer becomes `kept`, then the new bytes. */
  lemma ReappendedAfterCopy(kept: seq<byte>, tail: seq<byte>, keys: seq<int>, lens: seq<int>, index: int, obj: seq<byte>)
    requires |keys| == |lens| && |tail| != |obj|
    ensures var pushed := PushedToEnd(keys, lens, index, |obj|);
      Reappended(kept + tail, |kept|, keys, lens, index, obj, |tail|) == Spliced(Pass, kept + obj, |kept| + |obj|, pushed.0, pushed.1)
  {
    var g := kept + tail;
    assert g[..|kept|] == kept;
    if |obj| < |tail| {
      var h := Resized(g, |kept| + |obj|);
      assert h[..|kept|] == kept;
      OverwriteTail(h, |kept|, obj);
    } else {
      OverwriteTail(g, |kept|, obj);
    }
  }

  /** Bytes written at `p` that reach the end replace everything after `p`. */
  lemma OverwriteTail(g: seq<byte>, p: nat, obj: seq<byte>)
    requires p <= |g| <= p + |obj|
    ensures Overwrite(g, p, obj) == g[..p] + obj
  {
  }

  /** A write keeps the buffer laid out by the directory, when a size-changing write has its
      tail in one block or an empty slot. */
  lemma SpliceKeepsLayout(buf: seq<byte>, pos: int, keys: seq<int>, lens: seq<int>, index: int, obj: seq<byte>)
    requires |keys| == |lens| && Laid(buf, lens)
    requires index in keys && |obj| != lens[IndexOf(keys, index)] ==>
      var gap := lens[IndexOf(keys, index)];
      |buf| - SlotOffset(keys, lens, index) - gap <= QUERY_BLOCK_SIZE || gap == 0
    ensures var sp := Splice(buf, pos, keys, lens, index, obj);
      sp.outcome == Pass && |sp.keys| == |sp.lens| && Laid(sp.buffer, sp.lens)
  {
    if index !in keys {
      SpliceAppends(buf, pos, keys, lens, index, obj);
      SumAppend(lens, [|obj|]);
      assert Sum([|obj|]) == |obj| by {
        assert [|obj|][..0] == [];
      }
    } else if |obj| == lens[IndexOf(keys, index)] {
      SpliceInPlace(buf, pos, keys, lens, index, obj);
    } else {
      var i := IndexOf(keys, index);
      SpliceMoves(buf, pos, keys, lens, index, obj, SlotOffset(keys, lens, index), lens[i]);
      MovedKeepsLayout(lens, i, |obj|);
    }
  }

  /** Taking the length at `i` out and appending `n` changes the total by `n - lens[i]` and keeps
      every length non-negative. */
  lemma MovedKeepsLayout(lens: seq<int>, i: int, n: nat)
    requires 0 <= i < |lens| && forall j :: 0 <= j < |lens| ==> lens[j] >= 0
    ensures var moved := RemoveAt(lens, i) + [n];
      (forall j :: 0 <= j < |moved| ==> moved[j] >= 0) && Sum(moved) == Sum(lens) - lens[i] + n
  {
    RemoveAtShape(lens, i);
    assert lens == lens[..i] + [lens[i]] + lens[i + 1..];
    SumAppend(lens[..i] + [lens[i]], lens[i + 1..]);
    SumAppend(lens[..i], [lens[i]]);
    SumAppend(lens[..i], lens[i + 1..]);
    SumAppend(RemoveAt(lens, i), [n]);
    assert Sum([lens[i]]) == lens[i] by {
      assert [lens[i]][..0] == [];
    }
    assert Sum([n]) == n by {
      assert [n][..0] == [];
    }
  }

  /** No directory length is negative. */
  predicate Sized(lens: seq<int>)
  {
    forall i :: 0 <= i < |lens| ==> lens[i] >= 0
  }

  /** A write, whether it gets through or throws, leaves every directory length non-negative. */
  lemma SpliceKeepsSized(buf: seq<byte>, pos: int, keys: seq<int>, lens: seq<int>, index: int, obj: seq<byte>)
    requires |keys| == |lens| && Sized(lens)
    ensures var sp := Splice(buf, pos, keys, lens, index, obj);
      |sp.keys| == |sp.lens| && Sized(sp.lens)
  {
    var i := IndexOf(keys, index);
    if i != -1 {
      MovedKeepsLayout(lens, i, |obj|);
      RemoveAtShape(keys, i);
      RemoveAtShape(lens, i);
    }
  }

  /** The slot `index`, when listed, has a non-negative recorded length: what `Write` needs of
      the slot it writes (a parsed directory may list negative lengths for other slots). */
  predicate Writable(keys: seq<int>, lens: seq<int>, index: int)
    requires |keys| == |lens|
  {
    index in keys ==> lens[IndexOf(keys, index)] >= 0
  }

  /** A write of slot `index`, whether it gets through or throws, keeps every other slot listed
      or unlisted as it was, with the length it had. */
  lemma SpliceKeepsOthers(buf: seq<byte>, pos: int, keys: seq<int>, lens: seq<int>, index: int, obj: seq<byte>,
                          other: int)
    requires |keys| == |lens| && Writable(keys, lens, index) && other != index
    ensures var sp := Splice(buf, pos, keys, lens, index, obj);
      && |sp.keys| == |sp.lens| && (other in sp.keys <==> other in keys)
      && (other in keys ==> sp.lens[IndexOf(sp.keys, other)] == lens[IndexOf(keys, other)])
  {
    SpliceDirectory(buf, pos, keys, lens, index, obj);
    PushToEndKeepsOthers(keys, lens, index, |obj|, other);
  }

  /** A write leaves the directory as it was or as `PushToEnd(index, obj.Length)` makes it. */
  lemma SpliceDirectory(buf: seq<byte>, pos: int, keys: seq<int>, lens: seq<int>, index: int, obj: seq<byte>)
    requires |keys| == |lens| && Writable(keys, lens, index)
    ensures var sp := Splice(buf, pos, keys, lens, index, obj);
      || (sp.keys == keys && sp.lens == lens)
      || (sp.keys == PushedToEnd(keys, lens, index, |obj|).0 && sp.lens == PushedToEnd(keys, lens, index, |obj|).1)
  {
    var i := IndexOf(keys, index);
    if i != -1 {
      var gap, off := lens[i], SlotOffset(keys, lens, index);
      if |obj| != gap && off + gap >= 0 {
        var c := Copied(buf, off + gap, |buf| - off - gap, gap);
        assert Splice(buf, pos, keys, lens, index, obj) == Resize(buf, keys, lens, index, obj, gap, off);
      }
    }
  }

  // ---------------------------------------------------------------- removing and reading a slot

  /** `TryRemove(index)` on the buffer: a slot with bytes is cut out by the same copy loop and
      the buffer shortened by its length; an absent index or an empty slot changes nothing. The
      directory is left as it is. */
  function Cut(buf: seq<byte>, pos: int, keys: seq<int>, lens: seq<int>, index: int): Spliced
    requires |keys| == |lens|
  {
    var i := IndexOf(keys, index);
    if i == -1 || lens[i] <= 0 then Spliced(Pass, buf, pos, keys, lens)
    else
      var gap, off := lens[i], SlotOffset(keys, lens, index);
      if off + gap < 0 then Spliced(Fail(IOError), buf, pos, keys, lens)
      else Shorten(buf, keys, lens, gap, off)
  }

  /** The copy of `TryRemove` over the slot at `off`, then `Trimmed`. */
  function Shorten(buf: seq<byte>, keys: seq<int>, lens: seq<int>, gap: int, off: int): Spliced
    requires 0 <= gap && 0 <= off + gap
  {
    Trimmed(Copied(buf, off + gap, |buf| - off - gap, gap), keys, lens, gap)
  }

  /** After the copy of `TryRemove`: `SetLength(Length - gap)`, unless the copy threw. */
  function Trimmed(c: Step, keys: seq<int>, lens: seq<int>, gap: int): Spliced
  {
    var n := |c.file| - gap;
    if c.outcome.Fail? then Spliced(c.outcome, c.file, c.position, keys, lens)
    else if n < 0 then Spliced(Fail(ArgumentError), c.file, c.position, keys, lens)
    else Spliced(Pass, Resized(c.file, n), if c.position > n then n else c.position, keys, lens)
  }

  /** Removing an absent index, or a slot without bytes, changes nothing. */
  lemma CutNothing(buf: seq<byte>, pos: int, keys: seq<int>, lens: seq<int>, index: int)
    requires |keys| == |lens|
    requires index in keys ==> lens[IndexOf(keys, index)] <= 0
    ensures Cut(buf, pos, keys, lens, index) == Spliced(Pass, buf, pos, keys, lens)
  {
  }

  /** Removing a slot whose tail fits in one block cuts exactly its bytes out; the directory still
      lists it. */
  lemma CutOneBlock(buf: seq<byte>, pos: int, keys: seq<int>, lens: seq<int>, index: int, off: int, gap: int)
    requires |keys| == |lens| && Laid(buf, lens) && index in keys
    requires gap == lens[IndexOf(keys, index)] && off == SlotOffset(keys, lens, index)
    requires gap > 0 && |buf| - off - gap <= QUERY_BLOCK_SIZE
    ensures 0 <= off && off + gap <= |buf|
    ensures Cut(buf, pos, keys, lens, index) == Spliced(Pass, buf[..off] + buf[off + gap..], |buf| - gap, keys, lens)
  {
    SlotBounds(keys, lens, index);
    var kept := buf[..off] + buf[off + gap..];
    var tail := CopiedKeeps(buf, off, gap);
    CutIsTrimmed(buf, pos, keys, lens, index, off, gap);
    ShortenAfterCopy(buf, keys, lens, gap, off, Step(Pass, kept + tail, |kept|));
    TrimmedAfterCopy(kept, tail, keys, lens);
  }

  /** Removing a slot with bytes inside the buffer goes through `Trimmed`. */
  lemma CutIsTrimmed(buf: seq<byte>, pos: int, keys: seq<int>, lens: seq<int>, index: int, off: int, gap: int)
    requires |keys| == |lens| && index in keys
    requires gap == lens[IndexOf(keys, index)] && off == SlotOffset(keys, lens, index)
    requires gap > 0 && off + gap >= 0
    ensures Cut(buf, pos, keys, lens, index) == Shorten(buf, keys, lens, gap, off)
  {
  }

  /** `Shorten` once the copy is known. */
  lemma ShortenAfterCopy(buf: seq<byte>, keys: seq<int>, lens: seq<int>, gap: int, off: int, c: Step)
    requires 0 <= gap && 0 <= off + gap
    requires c == Copied(buf, off + gap, |buf| - off - gap, gap)
    ensures Shorten(buf, keys, lens, gap, off) == Trimmed(c, keys, lens, gap)
  {
  }

  /** Shortening the copied buffer by its tail leaves what was kept. */
  lemma TrimmedAfterCopy(kept: seq<byte>, tail: seq<byte>, keys: seq<int>, lens: seq<int>)
    ensures Trimmed(Step(Pass, kept + tail, |kept|), keys, lens, |tail|) == Spliced(Pass, kept, |kept|, keys, lens)
  {
    assert Resized(kept + tail, |kept|) == kept;
  }

  /** After removing a slot with bytes, the buffer is shorter than the lengths the directory still
      lists, so it no longer lays the buffer out. */
  lemma CutBreaksLayout(buf: seq<byte>, pos: int, keys: seq<int>, lens: seq<int>, index: int)
    requires |keys| == |lens| && Laid(buf, lens) && index in keys
    requires var gap := lens[IndexOf(keys, index)];
      gap > 0 && |buf| - SlotOffset(keys, lens, index) - gap <= QUERY_BLOCK_SIZE
    ensures var c := Cut(buf, pos, keys, lens, index);
      c.outcome == Pass && c.lens == lens && |c.buffer| == Sum(lens) - lens[IndexOf(keys, index)]
      && !Laid(c.buffer, c.lens)
  {
    CutOneBlock(buf, pos, keys, lens, index, SlotOffset(keys, lens, index), lens[IndexOf(keys, index)]);
  }

  /** `TryRead(index)`: an absent index reads nothing and fails; otherwise the slot's length in
      bytes is read at its offset into a zeroed buffer, and the read succeeds when all of them were
      there. A negative offset cannot be sought and a negative length cannot be allocated. */
  function SlotRead(buf: seq<byte>, keys: seq<int>, lens: seq<int>, index: int): Result<(bool, seq<byte>)>
    requires |keys| == |lens|
  {
    var i := IndexOf(keys, index);
    if i == -1 then Success((false, []))
    else
      var off, len := SlotOffset(keys, lens, index), lens[i];
      if off < 0 then Failure(IOError)
      else if len < 0 then Failure(Overflow)
      else Success((ReadCount(|buf|, off, len) == len, Window(buf, off, len)))
  }

  /** In a laid-out buffer every listed slot reads back whole: its bytes are there. */
  lemma SlotReadWhole(buf: seq<byte>, keys: seq<int>, lens: seq<int>, index: int, off: int, len: int)
    requires |keys| == |lens| && Laid(buf, lens) && index in keys
    requires len == lens[IndexOf(keys, index)] && off == SlotOffset(keys, lens, index)
    ensures 0 <= off <= off + len <= |buf|
    ensures SlotRead(buf, keys, lens, index) == Success((true, buf[off..off + len]))
  {
    SlotBounds(keys, lens, index);
    WindowSlice(buf, off, len);
  }

  /** A window that fits in the buffer is a slice of it. */
  lemma WindowSlice(buf: seq<byte>, p: nat, n: nat)
    requires p + n <= |buf|
    ensures ReadCount(|buf|, p, n) == n && Window(buf, p, n) == buf[p..p + n]
  {
  }

  /** The window over bytes inside the buffer is those bytes. */
  lemma WindowInside(a: seq<byte>, mid: seq<byte>, b: seq<byte>)
    ensures ReadCount(|a + mid + b|, |a|, |mid|) == |mid|
    ensures Window(a + mid + b, |a|, |mid|) == mid
  {
    var f := a + mid + b;
    assert f[|a|..|a| + |mid|] == mid;
  }

  /** What a write stores, a read gives back: after `Write(index, obj)` on a laid-out buffer with
      distinct keys (and a one-block tail when the slot changes length), `TryRead(index)` returns
      true and exactly `obj`. */
  lemma SpliceThenRead(buf: seq<byte>, pos: int, keys: seq<int>, lens: seq<int>, index: int, obj: seq<byte>)
    requires |keys| == |lens| && Laid(buf, lens) && Distinct(keys)
    requires index in keys && |obj| != lens[IndexOf(keys, index)] ==>
      var gap := lens[IndexOf(keys, index)];
      |buf| - SlotOffset(keys, lens, index) - gap <= QUERY_BLOCK_SIZE || gap == 0
    ensures var sp := Splice(buf, pos, keys, lens, index, obj);
      |sp.keys| == |sp.lens| && SlotRead(sp.buffer, sp.keys, sp.lens, index) == Success((true, obj))
  {
    if index !in keys {
      AppendThenRead(buf, pos, keys, lens, index, obj);
    } else if |obj| == lens[IndexOf(keys, index)] {
      OverwriteThenRead(buf, pos, keys, lens, index, obj, SlotOffset(keys, lens, index));
    } else {
      var i := IndexOf(keys, index);
      MoveThenRead(buf, pos, keys, lens, index, obj, SlotOffset(keys, lens, index), lens[i]);
    }
  }

  /** The appending write reads back. */
  lemma AppendThenRead(buf: seq<byte>, pos: int, keys: seq<int>, lens: seq<int>, index: int, obj: seq<byte>)
    requires |keys| == |lens| && Laid(buf, lens) && index !in keys
    ensures SlotRead(buf + obj, keys + [index], lens + [|obj|], index) == Success((true, obj))
    ensures Splice(buf, pos, keys, lens, index, obj)
      == Spliced(Pass, buf + obj, |buf| + |obj|, keys + [index], lens + [|obj|])
  {
    SpliceAppends(buf, pos, keys, lens, index, obj);
    LastSlotOffset(keys, lens, index, |obj|);
    ReadLast(buf, obj, keys + [index], lens + [|obj|], index);
  }

  /** The same-length write reads back. */
  lemma OverwriteThenRead(buf: seq<byte>, pos: int, keys: seq<int>, lens: seq<int>, index: int, obj: seq<byte>, off: int)
    requires |keys| == |lens| && Laid(buf, lens) && index in keys
    requires |obj| == lens[IndexOf(keys, index)] && off == SlotOffset(keys, lens, index)
    ensures 0 <= off && off + |obj| <= |buf|
    ensures SlotRead(buf[..off] + obj + buf[off + |obj|..], keys, lens, index) == Success((true, obj))
    ensures Splice(buf, pos, keys, lens, index, obj)
      == Spliced(Pass, buf[..off] + obj + buf[off + |obj|..], off + |obj|, keys, lens)
  {
    SpliceInPlace(buf, pos, keys, lens, index, obj);
    WindowInside(buf[..off], obj, buf[off + |obj|..]);
  }

  /** The size-changing write reads back from the end of the buffer. */
  lemma MoveThenRead(buf: seq<byte>, pos: int, keys: seq<int>, lens: seq<int>, index: int, obj: seq<byte>, off: int, gap: int)
    requires |keys| == |lens| && Laid(buf, lens) && Distinct(keys) && index in keys
    requires gap == lens[IndexOf(keys, index)] && off == SlotOffset(keys, lens, index)
    requires |obj| != gap && (|buf| - off - gap <= QUERY_BLOCK_SIZE || gap == 0)
    ensures var sp := Splice(buf, pos, keys, lens, index, obj);
      |sp.keys| == |sp.lens| && SlotRead(sp.buffer, sp.keys, sp.lens, index) == Success((true, obj))
  {
    SpliceMoves(buf, pos, keys, lens, index, obj, off, gap);
    PushedSlotOffset(keys, lens, index, |obj|);
    PushToEndShape(keys, lens, index, |obj|);
    var pushed := PushedToEnd(keys, lens, index, |obj|);
    ReadLast(buf[..off] + buf[off + gap..], obj, pushed.0, pushed.1, index);
  }

  /** The last slot, starting where the buffer before it ends, reads back whole. */
  lemma ReadLast(kept: seq<byte>, obj: seq<byte>, ks: seq<int>, vs: seq<int>, index: int)
    requires |ks| == |vs| > 0 && IndexOf(ks, index) == |ks| - 1
    requires SlotOffset(ks, vs, index) == |kept| && vs[|vs| - 1] == |obj|
    ensures SlotRead(kept + obj, ks, vs, index) == Success((true, obj))
  {
    WindowInside(kept, obj, []);
    assert kept + obj + [] == kept + obj;
  }

  /** With distinct keys, a pushed key's slot starts where the other slots end. */
  lemma PushedSlotOffset(keys: seq<int>, lens: seq<int>, index: int, n: int)
    requires |keys| == |lens| && Distinct(keys) && index in keys
    ensures var pushed := PushedToEnd(keys, lens, index, n);
      |pushed.0| == |pushed.1| && IndexOf(pushed.0, index) == |pushed.0| - 1
      && SlotOffset(pushed.0, pushed.1, index) == Sum(lens) - lens[IndexOf(keys, index)]
  {
    var i := IndexOf(keys, index);
    SumRemoveAt(lens, i);
    RemoveAtKeepsDistinct(keys, i);
    RemoveAtShape(keys, i);
    RemoveAtShape(lens, i);
    LastSlotOffset(RemoveAt(keys, i), RemoveAt(lens, i), index, n);
  }

  /** A key appended to a directory that lacked it sits after every other slot. */
  lemma LastSlotOffset(keys: seq<int>, lens: seq<int>, index: int, n: int)
    requires |keys| == |lens| && index !in keys
    ensures IndexOf(keys + [index], index) == |keys|
    ensures SlotOffset(keys + [index], lens + [n], index) == Sum(lens)
  {
    SlotOffsetIsPrefixSum(keys + [index], lens + [n], index);
    assert (lens + [n])[..|keys|] == lens;
  }

  // ---------------------------------------------------------------- the buffer operations

  /** The body of the do-while: read a block, seek back over the gap and what was read, write the
      block there. Returns how many bytes were read. */
  method CopyPass(io: ByteStream, gap: int) returns (r: Outcome, n: int)
    requires io.Valid() && 0 <= gap
    modifies io
    ensures io.Valid()
    ensures n == |Chunk(old(io.data), old(io.position))|
    ensures r.Fail? <==> old(io.position) - gap < 0
    ensures r.Fail? ==> r.error == IOError && io.data == old(io.data) && io.position == old(io.position) + n
    ensures r.Pass? ==> io.data == Overwrite(old(io.data), old(io.position) - gap, Chunk(old(io.data), old(io.position)))
    ensures r.Pass? ==> io.position == old(io.position) - gap + n
  {
    var got := io.Read(QUERY_BLOCK_SIZE);
    assert got.value == Chunk(old(io.data), old(io.position));
    n := |got.value|;
    var back := io.SeekCurrent(-(gap + n));
    if back.Fail? {
      return Fail(IOError), n;
    }
    io.Write(got.value);
    r := Pass;
  }

  /** The copy still to do: from the cursor `p` of content `f`, `rest` bytes are left, and the
      loop ends as `want`. */
  ghost predicate Copying(f: seq<byte>, p: int, rest: int, gap: int, want: Step)
  {
    0 <= gap && 0 <= p && p + rest <= |f| && Copied(f, p, rest, gap) == want
  }

  /** The do-while block-copy loop of `Write` and `TryRemove`, from a cursor just after the slot:
      the stream ends as `Copied` says. */
  method CopyBack(io: ByteStream, gap: int, left: int) returns (r: Outcome)
    requires io.Valid() && 0 <= gap && io.position + left <= |io.data|
    modifies io
    ensures io.Valid()
    ensures Copied(old(io.data), old(io.position), left, gap) == Step(r, io.data, io.position)
  {
    ghost var want := Copied(io.data, io.position, left, gap);
    var rest := left;
    var more := true;
    r := Pass;
    while more
      invariant io.Valid()
      invariant more ==> Copying(io.data, io.position, rest, gap, want)
      invariant !more ==> Step(r, io.data, io.position) == want
      decreases more, if rest > 0 then rest else 0
    {
      r, rest, more := CopyTurn(io, gap, rest, want);
    }
  }

  /** One turn of the loop: a pass, then `left -= read` and the test `left > 0`. */
  method CopyTurn(io: ByteStream, gap: int, rest: int, ghost want: Step) returns (r: Outcome, rest': int, more: bool)
    requires io.Valid() && Copying(io.data, io.position, rest, gap, want)
    modifies io
    ensures io.Valid()
    ensures more ==> Copying(io.data, io.position, rest', gap, want) && 0 < rest' < rest
    ensures !more ==> Step(r, io.data, io.position) == want
  {
    ghost var f, p := io.data, io.position;
    var out, n := CopyPass(io, gap);
    if out.Fail? {
      CopyingThrows(f, p, rest, gap, want);
      return out, rest, false;
    }
    CopyingGoesOn(f, p, rest, gap, want, io.data, io.position, n);
    r, rest' := Pass, rest - n;
    more := rest' > 0;
  }

  /** A pass whose seek threw ends the copy. */
  lemma CopyingThrows(f: seq<byte>, p: int, rest: int, gap: int, want: Step)
    requires Copying(f, p, rest, gap, want) && p - gap < 0
    ensures want == Step(Fail(IOError), f, p + |Chunk(f, p)|)
  {
  }

  /** A pass that wrote its block leaves the rest of the copy to do, or ends it. */
  lemma CopyingGoesOn(f: seq<byte>, p: int, rest: int, gap: int, want: Step, g: seq<byte>, q: int, n: int)
    requires Copying(f, p, rest, gap, want) && p - gap >= 0
    requires n == |Chunk(f, p)| && g == Overwrite(f, p - gap, Chunk(f, p)) && q == p - gap + n
    ensures rest - n > 0 ==> Copying(g, q, rest - n, gap, want) && n > 0
    ensures rest - n <= 0 ==> want == Step(Pass, g, q)
  {
  }

  /** `Write(index, obj)` on the buffer and the directory, as `Splice` says. */
  method SpliceSlot(buf: ByteStream, dir: OrderedDictionary, index: int, obj: seq<byte>) returns (r: Outcome)
    requires buf.Valid() && dir.Valid()
    requires index in dir.keys ==> dir.values[IndexOf(dir.keys, index)] >= 0
    modifies buf, dir
    ensures buf.Valid() && dir.Valid()
    ensures Spliced(r, buf.data, buf.position, dir.keys, dir.values)
      == Splice(old(buf.data), old(buf.position), old(dir.keys), old(dir.values), index, obj)
  {
    if dir.ContainsKey(index) {
      var gap := dir.Get(index).value;
      var off := SlotOffset(dir.keys, dir.values, index);
      if |obj| == gap {
        r := WriteSame(buf, off, obj);
      } else {
        r := WriteResized(buf, dir, index, obj, gap, off);
      }
    } else {
      buf.SeekEnd();
      buf.Write(obj);
      dir.Add(index, |obj|);
      r := Pass;
    }
  }

  /** The same-size branch: seek to the slot and write over it. */
  method WriteSame(buf: ByteStream, off: int, obj: seq<byte>) returns (r: Outcome)
    requires buf.Valid()
    modifies buf
    ensures buf.Valid()
    ensures r.Pass? <==> off >= 0
    ensures r.Fail? ==> r.error == IOError && buf.data == old(buf.data) && buf.position == old(buf.position)
    ensures r.Pass? ==> buf.data == Overwrite(old(buf.data), off, obj) && buf.position == off + |obj|
  {
    r := buf.Seek(off);
    if r.Pass? {
      buf.Write(obj);
    }
  }

  /** The size-changing branch: seek past the slot, copy the rest back over it, then `Reappend`. */
  method WriteResized(buf: ByteStream, dir: OrderedDictionary, index: int, obj: seq<byte>, gap: int, off: int)
    returns (r: Outcome)
    requires buf.Valid() && dir.Valid() && 0 <= gap
    modifies buf, dir
    ensures buf.Valid() && dir.Valid()
    ensures off + gap < 0 ==>
      && r == Fail(IOError) && buf.data == old(buf.data) && buf.position == old(buf.position)
      && dir.keys == old(dir.keys) && dir.values == old(dir.values)
    ensures off + gap >= 0 ==>
      Spliced(r, buf.data, buf.position, dir.keys, dir.values)
      == Resize(old(buf.data), old(dir.keys), old(dir.values), index, obj, gap, off)
  {
    var left := |buf.data| - off - gap;
    ghost var f := buf.data;
    r := buf.Seek(off + gap);
    if r.Fail? {
      return;
    }
    r := CopyBack(buf, gap, left);
    ResizeAfterCopy(f, dir.keys, dir.values, index, obj, gap, off, Step(r, buf.data, buf.position));
    if r.Fail? {
      return;
    }
    r := Reappend(buf, dir, index, obj, gap);
  }

  /** After the copy: `SetLength(Length + diff)` when the slot shrank, the new bytes, then
      `PushToEnd(index, obj.Length)`. */
  method Reappend(buf: ByteStream, dir: OrderedDictionary, index: int, obj: seq<byte>, gap: int) returns (r: Outcome)
    requires buf.Valid() && dir.Valid()
    modifies buf, dir
    ensures buf.Valid() && dir.Valid()
    ensures Spliced(r, buf.data, buf.position, dir.keys, dir.values)
      == Reappended(old(buf.data), old(buf.position), old(dir.keys), old(dir.values), index, obj, gap)
  {
    var diff := |obj| - gap;
    if diff < 0 {
      r := buf.SetLength(|buf.data| + diff);
      if r.Fail? {
        return;
      }
    }
    ghost var h, p := buf.data, buf.position;
    buf.Write(obj);
    dir.PushToEnd(index, |obj|);
    r := Pass;
    ReappendedParts(old(buf.data), old(buf.position), old(dir.keys), old(dir.values), index, obj, gap, h, p);
  }

  /** `Reappended` once the shortened buffer `h` and cursor `p` are known. */
  lemma ReappendedParts(g: seq<byte>, at: nat, keys: seq<int>, lens: seq<int>, index: int, obj: seq<byte>, gap: int,
                        h: seq<byte>, p: int)
    requires |keys| == |lens|
    requires var n := |g| + |obj| - gap;
      !(|obj| < gap && n < 0)
      && h == (if |obj| < gap then Resized(g, n) else g)
      && p == (if |obj| < gap && at > n then n else at)
    ensures Reappended(g, at, keys, lens, index, obj, gap)
      == Spliced(Pass, Overwrite(h, p, obj), p + |obj|,
                 PushedToEnd(keys, lens, index, |obj|).0, PushedToEnd(keys, lens, index, |obj|).1)
  {
  }

  /** The removal of `gap` bytes at `off`: seek past them, copy the rest back, shorten. */
  method CutBytes(buf: ByteStream, gap: int, off: int, ghost keys: seq<int>, ghost lens: seq<int>) returns (r: Outcome)
    requires buf.Valid() && 0 < gap
    modifies buf
    ensures buf.Valid()
    ensures off + gap < 0 ==>
      r == Fail(IOError) && buf.data == old(buf.data) && buf.position == old(buf.position)
    ensures off + gap >= 0 ==>
      Spliced(r, buf.data, buf.position, keys, lens) == Shorten(old(buf.data), keys, lens, gap, off)
  {
    var left := |buf.data| - off - gap;
    ghost var f := buf.data;
    r := buf.Seek(off + gap);
    if r.Fail? {
      return;
    }
    r := CopyBack(buf, gap, left);
    ShortenAfterCopy(f, keys, lens, gap, off, Step(r, buf.data, buf.position));
    if r.Fail? {
      return;
    }
    r := Shrink(buf, gap, keys, lens);
  }

  /** `SetLength(Length - gap)` once the copy is done. */
  method Shrink(buf: ByteStream, gap: int, ghost keys: seq<int>, ghost lens: seq<int>) returns (r: Outcome)
    requires buf.Valid()
    modifies buf
    ensures buf.Valid()
    ensures Spliced(r, buf.data, buf.position, keys, lens) == Trimmed(Step(Pass, old(buf.data), old(buf.position)), keys, lens, gap)
  {
    r := buf.SetLength(|buf.data| - gap);
  }

  /** The read of `TryRead` once the slot is known to be listed: seek to its offset, allocate its
      length, read. */
  method ReadSlot(buf: ByteStream, dir: OrderedDictionary, index: int) returns (r: Result<(bool, seq<byte>)>)
    requires buf.Valid() && dir.Valid() && index in dir.keys
    modifies buf
    ensures buf.Valid() && buf.data == old(buf.data)
    ensures r == SlotRead(buf.data, dir.keys, dir.values, index)
  {
    var off := SlotOffset(dir.keys, dir.values, index);
    var len := dir.Get(index).value;
    var sk := buf.Seek(off);
    if sk.Fail? {
      return Failure(IOError);
    }
    if len < 0 {
      return Failure(Overflow);
    }
    var got := buf.Read(len);
    WindowOfRead(buf.data, off, len, got.value);
    return Success((|got.value| == len, got.value + Zeros(len - |got.value|)));
  }

  // ---------------------------------------------------------------- read then decode

  /** What reading a slot and decoding it depend on: the payload the buffer holds or would load
      (or the load's error), the directory, the cache (`None` once the query is disposed), and
      the host's hooks. */
  datatype SlotView = SlotView(payload: Result<seq<byte>>, keys: seq<int>, lens: seq<int>,
                       cache: Option<map<int, Value>>, host: HostCodec)

  predicate WellFormed(v: SlotView)
  {
    |v.keys| == |v.lens|
  }

  /** `TryRead(index)`: an unlisted slot is `false` and loads nothing; a listed one loads the
      payload, then reads as `SlotRead` says. */
  function ReadView(v: SlotView, index: int): (r: Result<(bool, seq<byte>)>)
    requires WellFormed(v)
    ensures index !in v.keys ==> r == Success((false, []))
    ensures index in v.keys && v.payload.Success? ==> r == SlotRead(v.payload.value, v.keys, v.lens, index)
  {
    if index !in v.keys then Success((false, []))
    else if v.payload.Failure? then Failure(v.payload.error)
    else SlotRead(v.payload.value, v.keys, v.lens, index)
  }

  /** `Deserialize(index, bytes)` decoding as `t`: the cached value, or a fresh decode. */
  function Decoded(v: SlotView, index: int, bytes: seq<byte>, t: TypeTag): Result<Value>
  {
    if v.cache.None? then Failure(NullReference)
    else if index in v.cache.value then Success(v.cache.value[index])
    else PreDeserialize(t, bytes, v.host)
  }

  /** A read that must succeed, then a decode: an incomplete read is an `IOException`. */
  function Fetched(v: SlotView, index: int, t: TypeTag): Result<Value>
    requires WellFormed(v)
  {
    var read := ReadView(v, index);
    if read.Failure? then Failure(read.error)
    else if !read.value.0 then Failure(IOError)
    else Decoded(v, index, read.value.1, t)
  }

  /** The cache after `Deserialize(index, ...)` produced `r`: a decoded miss is added. */
  function Absorbed(v: SlotView, index: int, r: Result<Value>): (w: SlotView)
    ensures w.payload == v.payload && w.keys == v.keys && w.lens == v.lens && w.host == v.host
    ensures w.cache.Some? == v.cache.Some?
  {
    if r.Success? && v.cache.Some? && index !in v.cache.value
    then v.(cache := Some(v.cache.value[index := r.value]))
    else v
  }

  /** `w` answers every read of a `t` slot as `v` does: same payload and directory, and every
      value it caches beyond `v`'s is what a read of `v` decodes. */
  ghost predicate Coherent(v: SlotView, w: SlotView, t: TypeTag)
  {
    && w.payload == v.payload && w.keys == v.keys && w.lens == v.lens && w.host == v.host
    && w.cache.Some? == v.cache.Some?
    && (v.cache.Some? ==>
          && (forall k :: k in v.cache.value ==> k in w.cache.value && w.cache.value[k] == v.cache.value[k])
          && (forall k :: k in w.cache.value && k !in v.cache.value ==>
                WellFormed(v) && Fetched(v, k, t) == Success(w.cache.value[k])))
  }

  /** A coherent cache reads as the original one. */
  lemma CoherentFetched(v: SlotView, w: SlotView, t: TypeTag, k: int)
    requires WellFormed(v) && Coherent(v, w, t)
    ensures WellFormed(w) && Fetched(w, k, t) == Fetched(v, k, t)
  {
    if v.cache.Some? && k in w.cache.value && k !in v.cache.value {
      assert ReadView(w, k) == ReadView(v, k);
    }
  }

  /** Reading a slot keeps the cache coherent: what it adds is what the read decoded. */
  lemma AbsorbedCoherent(v: SlotView, w: SlotView, t: TypeTag, k: int)
    requires WellFormed(v) && Coherent(v, w, t)
    ensures Coherent(v, Absorbed(w, k, Fetched(w, k, t)), t)
  {
    CoherentFetched(v, w, t, k);
  }

  /** Every view is coherent with itself. */
  lemma CoherentSelf(v: SlotView, t: TypeTag)
    requires WellFormed(v)
    ensures Coherent(v, v, t)
  {
  }

  /** The cut of `TryRemove` does not depend on the buffer's cursor, except for the cursor it
      leaves behind. */
  lemma CutIgnoresCursor(buf: seq<byte>, p: int, q: int, keys: seq<int>, lens: seq<int>, index: int)
    requires |keys| == |lens|
    ensures Cut(buf, p, keys, lens, index).outcome == Cut(buf, q, keys, lens, index).outcome
    ensures Cut(buf, p, keys, lens, index).buffer == Cut(buf, q, keys, lens, index).buffer
  {
  }

  // ---------------------------------------------------------------- the query

  /** `BaseQuery<T>`: a connection to one sector, with the element type `T`, a dirty flag, and
      the deserialisation cache the sector's `Updated` event may replace (held by `sub`). */
  class BaseQuery {
    const s: Sector
    const sub: Subscription
    var changed: bool
    var saveOnDisposed: bool

    /** The query is registered on its sector, which belongs to a consistent catalog, and its
        cache, when it has one, holds values of its own type. */
    ghost predicate Valid()
      reads this, s, s.enumerator, s.enumerator.io, s.enumerator.subscribers
      reads s.enumerator.Directories(), s.enumerator.Buffers(), sub, sub.cache
    {
      && s.enumerator.Valid() && s in s.enumerator.subscribers && sub in s.listeners
      && (sub.cache != null ==> sub.cache.elementType == sub.elementType)
    }

    /** The buffer cursor once the payload is loaded: where it is, or at the end of a fresh load. */
    ghost function Cursor(): int
      reads this, s, s.values, s.ms, s.enumerator.io
      requires s.values.Valid()
    {
      if s.ms != null then s.ms.position
      else var p := s.LoadedPayload(); if p.Success? then |p.value| else 0
    }

    /** `new BaseQuery(sector, saveOnDisposed)`: an empty cache, registered on `Updated`, and one
        more connection on the sector. */
    constructor(sector: Sector, elementType: TypeTag, saveOnDisposed: bool)
      requires sector.enumerator.Valid() && sector in sector.enumerator.subscribers
      modifies sector
      ensures Valid() && s == sector && sub.elementType == elementType
      ensures fresh(sub) && fresh(sub.cache) && sub.cache.entries == map[]
      ensures !changed && this.saveOnDisposed == saveOnDisposed
      ensures sector.listeners == old(sector.listeners) + [sub]
      ensures sector.connected == old(sector.connected) + 1
      ensures sector.ms == if old(sector.connected) == -1 then null else old(sector.ms)
      ensures sector.values == old(sector.values)
      ensures sector.length == old(sector.length) && sector.offset == old(sector.offset)
      ensures sector.isNew == old(sector.isNew)
    {
      s := sector;
      var cache := new SlotCache(elementType);
      sub := new Subscription(elementType, cache);
      changed := false;
      this.saveOnDisposed := saveOnDisposed;
      new;
      sector.listeners := sector.listeners + [sub];
      sector.SetConnected(sector.connected + 1);
    }

    /** The `io` getter: the sector's buffer, loaded on first use. */
    method Load() returns (r: Result<ByteStream>)
      requires Valid()
      modifies s, s.enumerator.io
      ensures Valid()
      ensures r.Success? <==> old(s.LoadedPayload()).Success?
      ensures r.Failure? ==> r.error == old(s.LoadedPayload()).error && s.ms == null
      ensures r.Success? ==> s.ms == r.value && s.ms.data == old(s.LoadedPayload()).value && s.ms.position == old(Cursor())
      ensures old(s.ms) != null ==> s.ms == old(s.ms)
      ensures old(s.ms) == null && r.Success? ==> fresh(s.ms)
      ensures s.values == old(s.values) && s.connected == old(s.connected) && s.listeners == old(s.listeners)
      ensures s.LoadedPayload() == old(s.LoadedPayload())
    {
      r := s.Stream();
    }

    /** `Write(index, obj)`: the buffer is loaded (a failed load throws), the slot is spliced as
        `Splice` says, and on success the query is marked changed and the catalog told that the
        sector changed, handing every query of an equal sector this query's cache. */
    method Write(index: int, obj: seq<byte>) returns (r: Outcome)
      requires Valid()
      requires index in s.values.keys ==> s.values.values[IndexOf(s.values.keys, index)] >= 0
      modifies this, s, s.values, s.ms, s.enumerator, s.enumerator.io, s.enumerator.subscribers
      modifies s.enumerator.Listeners(s)
      ensures Valid() && s.values == old(s.values) && (s.ms == old(s.ms) || fresh(s.ms))
      ensures s.enumerator.Listeners(s) == old(s.enumerator.Listeners(s)) && s.enumerator.subscribers == old(s.enumerator.subscribers)
      ensures old(s.LoadedPayload()).Failure? ==>
        r == Fail(old(s.LoadedPayload()).error) && s.values.keys == old(s.values.keys) && s.values.values == old(s.values.values)
      ensures old(s.LoadedPayload()).Success? ==>
        s.ms != null &&
        Spliced(r, s.ms.data, s.ms.position, s.values.keys, s.values.values)
        == Splice(old(s.LoadedPayload()).value, old(Cursor()), old(s.values.keys), old(s.values.values), index, obj)
      ensures changed == (old(changed) || r.Pass?)
      ensures r.Pass? ==> forall l :: l in old(s.enumerator.Listeners(s)) ==>
        l.cache == CastCache(old(sub.cache), l.elementType)
      ensures sub.cache == old(sub.cache) && saveOnDisposed == old(saveOnDisposed)
    {
      var buffer := Load();
      if buffer.Failure? {
        return Fail(buffer.error);
      }
      r := WriteLoaded(index, obj);
    }

    /** `Write` once the buffer is loaded. */
    method WriteLoaded(index: int, obj: seq<byte>) returns (r: Outcome)
      requires Valid() && s.ms != null
      requires index in s.values.keys ==> s.values.values[IndexOf(s.values.keys, index)] >= 0
      modifies this, s.values, s.ms, s.enumerator, s.enumerator.subscribers, s.enumerator.Listeners(s)
      ensures Valid() && s.ms == old(s.ms) && s.values == old(s.values)
      ensures s.enumerator.Listeners(s) == old(s.enumerator.Listeners(s)) && s.enumerator.subscribers == old(s.enumerator.subscribers)
      ensures Spliced(r, s.ms.data, s.ms.position, s.values.keys, s.values.values)
        == Splice(old(s.ms.data), old(s.ms.position), old(s.values.keys), old(s.values.values), index, obj)
      ensures changed == (old(changed) || r.Pass?)
      ensures r.Pass? ==> forall l :: l in old(s.enumerator.Listeners(s)) ==>
        l.cache == CastCache(old(sub.cache), l.elementType)
      ensures sub.cache == old(sub.cache) && saveOnDisposed == old(saveOnDisposed)
    {
      r := SpliceLoaded(index, obj);
      if r.Pass? {
        Notify();
      }
    }

    /** The end of a successful `Write`: the query is changed and the catalog is told. */
    method Notify()
      requires Valid() && s.ms != null
      modifies this, s.enumerator, s.enumerator.subscribers, s.enumerator.Listeners(s)
      ensures Valid() && changed
      ensures s.ms == old(s.ms) && s.values == old(s.values)
      ensures s.enumerator.Listeners(s) == old(s.enumerator.Listeners(s)) && s.enumerator.subscribers == old(s.enumerator.subscribers)
      ensures forall l :: l in old(s.enumerator.Listeners(s)) ==>
        l.cache == CastCache(old(sub.cache), l.elementType)
      ensures sub.cache == old(sub.cache) && saveOnDisposed == old(saveOnDisposed)
    {
      changed := true;
      s.enumerator.UpdateSectorChanged(s, sub.cache);
    }

    /** The splice of `Write` on the loaded buffer; the catalog stays consistent. */
    method SpliceLoaded(index: int, obj: seq<byte>) returns (r: Outcome)
      requires s.enumerator.Valid() && s in s.enumerator.subscribers && s.ms != null
      requires index in s.values.keys ==> s.values.values[IndexOf(s.values.keys, index)] >= 0
      modifies s.ms, s.values
      ensures s.enumerator.Valid()
      ensures Spliced(r, s.ms.data, s.ms.position, s.values.keys, s.values.values)
        == Splice(old(s.ms.data), old(s.ms.position), old(s.values.keys), old(s.values.values), index, obj)
    {
      r := SpliceSlot(s.ms, s.values, index, obj);
    }

    /** `cache.Remove(index)`, which throws when the query was disposed. */
    method Uncache(index: int) returns (ok: bool)
      requires Valid()
      modifies sub.cache
      ensures Valid()
      ensures ok == (sub.cache != null)
      ensures ok ==> sub.cache.entries == old(sub.cache.entries) - {index}
      ensures s.enumerator.Listeners(s) == old(s.enumerator.Listeners(s)) && s.enumerator.subscribers == old(s.enumerator.subscribers)
    {
      if sub.cache == null {
        return false;
      }
      sub.cache.entries := sub.cache.entries - {index};
      return true;
    }

    /** `cache[index] = v`, which throws when the query was disposed. */
    method Recache(index: int, v: Value) returns (ok: bool)
      requires Valid()
      modifies sub.cache
      ensures Valid()
      ensures ok == (sub.cache != null)
      ensures ok ==> sub.cache.entries == old(sub.cache.entries)[index := v]
      ensures s.enumerator.Listeners(s) == old(s.enumerator.Listeners(s)) && s.enumerator.subscribers == old(s.enumerator.subscribers)
    {
      if sub.cache == null {
        return false;
      }
      sub.cache.entries := sub.cache.entries[index := v];
      return true;
    }

    /** The cached values, none once the query is disposed. */
    ghost function Entries(): map<int, Value>
      reads this, sub, sub.cache
    {
      if sub.cache == null then map[] else sub.cache.entries
    }

    /** What reads of this query see. */
    ghost function View(): (v: SlotView)
      reads this, s, s.values, s.ms, s.enumerator, s.enumerator.io, sub, sub.cache
      requires s.values.Valid()
      ensures WellFormed(v)
    {
      SlotView(s.LoadedPayload(), s.values.keys, s.values.values,
           if sub.cache == null then None else Some(sub.cache.entries), s.enumerator.host)
    }

    /** What a `TryWrite` of `obj` leaves: the buffer and directory as `Splice` makes them from the
        loaded payload, and on success a changed query whose cache holds `updated`. A failed
        load is `false` and changes nothing of the query. */
    ghost predicate TriedWrite(index: int, obj: seq<byte>, ok: bool, payload: Result<seq<byte>>, cursor: int,
                               keys: seq<int>, lens: seq<int>, wasChanged: bool, entries: map<int, Value>,
                               updated: map<int, Value>)
      reads this, s, s.values, s.ms, sub, sub.cache
      requires |keys| == |lens| && (index in keys ==> lens[IndexOf(keys, index)] >= 0)
    {
      if payload.Failure? then
        !ok && changed == wasChanged && Entries() == entries && s.values.keys == keys && s.values.values == lens
      else
        var sp := Splice(payload.value, cursor, keys, lens, index, obj);
        && s.ms != null && Spliced(sp.outcome, s.ms.data, s.ms.position, s.values.keys, s.values.values) == sp
        && changed == (wasChanged || sp.outcome.Pass?)
        && ok == (sp.outcome.Pass? && sub.cache != null)
        && Entries() == if ok then updated else entries
    }

    /** `TryWrite(index, byte[])`: `Write`, then the cached value of the slot is dropped; any
        exception on the way is `false`. */
    method TryWriteBytes(index: int, obj: seq<byte>) returns (ok: bool)
      requires Valid()
      requires index in s.values.keys ==> s.values.values[IndexOf(s.values.keys, index)] >= 0
      modifies this, s, s.values, s.ms, s.enumerator, s.enumerator.io, s.enumerator.subscribers
      modifies s.enumerator.Listeners(s), sub.cache
      ensures Valid() && sub.cache == old(sub.cache)
      ensures s.values == old(s.values) && (s.ms == old(s.ms) || fresh(s.ms))
      ensures s.enumerator.Listeners(s) == old(s.enumerator.Listeners(s)) && s.enumerator.subscribers == old(s.enumerator.subscribers)
      ensures TriedWrite(index, obj, ok, old(s.LoadedPayload()), old(Cursor()), old(s.values.keys), old(s.values.values),
                         old(changed), old(Entries()), old(Entries()) - {index})
    {
      var w := Write(index, obj);
      ok := false;
      if w.Pass? {
        ok := Uncache(index);
      }
    }

    /** `TryWrite(index, T)`: the value is serialised, written with `Write`, then cached; any
        exception on the way is `false`. */
    method TryWriteValue(index: int, v: Value) returns (ok: bool)
      requires Valid() && WellTyped(v) && Assignable(v, sub.elementType)
      requires index in s.values.keys ==> s.values.values[IndexOf(s.values.keys, index)] >= 0
      modifies this, s, s.values, s.ms, s.enumerator, s.enumerator.io, s.enumerator.subscribers
      modifies s.enumerator.Listeners(s), sub.cache
      ensures Valid() && sub.cache == old(sub.cache)
      ensures s.values == old(s.values) && (s.ms == old(s.ms) || fresh(s.ms))
      ensures s.enumerator.Listeners(s) == old(s.enumerator.Listeners(s)) && s.enumerator.subscribers == old(s.enumerator.subscribers)
      ensures TriedWrite(index, PreSerialize(v, s.enumerator.host), ok, old(s.LoadedPayload()), old(Cursor()),
                         old(s.values.keys), old(s.values.values), old(changed), old(Entries()), old(Entries())[index := v])
    {
      var w := Write(index, PreSerialize(v, s.enumerator.host));
      ok := false;
      if w.Pass? {
        ok := Recache(index, v);
      }
    }

    /** `TryRemove(index)`: a listed slot with bytes has them cut out of the buffer, as `Cut`
        says; the directory keeps the slot. A listed slot marks the query changed and is
        dropped from the cache; an unlisted one is a success that changes nothing. */
    method TryRemove(index: int) returns (ok: bool)
      requires Valid()
      modifies this, s, s.ms, s.enumerator.io, sub.cache
      ensures Valid() && sub.cache == old(sub.cache)
      ensures s.values == old(s.values)
      ensures index !in s.values.keys ==>
        ok && changed == old(changed) && s.ms == old(s.ms) && Entries() == old(Entries())
        && s.LoadedPayload() == old(s.LoadedPayload())
      ensures index in s.values.keys && s.values.values[IndexOf(s.values.keys, index)] <= 0 ==>
        s.ms == old(s.ms) && changed && ok == (sub.cache != null) && Entries() == old(Entries()) - {index}
        && s.LoadedPayload() == old(s.LoadedPayload())
      ensures index in s.values.keys && s.values.values[IndexOf(s.values.keys, index)] > 0 ==>
        RemovedLoaded(index, ok, old(s.LoadedPayload()), old(Cursor()), old(changed), old(Entries()))
    {
      if !s.values.ContainsKey(index) {
        return true;
      }
      var gap := s.values.Get(index).value;
      if gap > 0 {
        ok := RemoveBytes(index, gap);
      } else {
        ok := Forget(index);
      }
    }

    /** `TryRemove` of a slot that holds `gap > 0` bytes. */
    method RemoveBytes(index: int, gap: int) returns (ok: bool)
      requires Valid() && index in s.values.keys && gap == s.values.values[IndexOf(s.values.keys, index)] && gap > 0
      modifies this, s, s.ms, s.enumerator.io, sub.cache
      ensures Valid() && sub.cache == old(sub.cache) && s.values == old(s.values)
      ensures RemovedLoaded(index, ok, old(s.LoadedPayload()), old(Cursor()), old(changed), old(Entries()))
    {
      var buffer := Load();
      if buffer.Failure? {
        return false;
      }
      var r := CutLoaded(index, gap, SlotOffset(s.values.keys, s.values.values, index));
      if r.Fail? {
        return false;
      }
      ok := Forget(index);
    }

    /** The end of a `TryRemove` that got through: the query is changed and the slot's cached
        value is dropped. */
    method Forget(index: int) returns (ok: bool)
      requires Valid()
      modifies this, sub.cache
      ensures Valid() && changed && saveOnDisposed == old(saveOnDisposed) && sub.cache == old(sub.cache)
      ensures ok == (sub.cache != null) && Entries() == old(Entries()) - {index}
    {
      changed := true;
      ok := Uncache(index);
    }

    /** What `TryRemove` of a slot with bytes leaves: the buffer as `Cut` makes it from the loaded
        payload, and on success a changed query without the slot's cached value. */
    ghost predicate RemovedLoaded(index: int, ok: bool, payload: Result<seq<byte>>, cursor: int, wasChanged: bool,
                                  entries: map<int, Value>)
      reads this, s, s.values, s.ms, sub, sub.cache
      requires s.values.Valid()
    {
      if payload.Failure? then !ok && changed == wasChanged && Entries() == entries
      else
        var cut := Cut(payload.value, cursor, s.values.keys, s.values.values, index);
        && s.ms != null && s.ms.data == cut.buffer && s.ms.position == cut.position
        && changed == (wasChanged || cut.outcome.Pass?)
        && ok == (cut.outcome.Pass? && sub.cache != null)
        && Entries() == if ok then entries - {index} else entries
    }

    /** What `TryRemove(index)` of a listed slot leaves, seen from the payload `payload` the
        slots `keys`/`lens` were loaded from: the buffer as `Cut` makes it, wherever the cursor
        was; the query changed when the cut got through; the answer `ok` true exactly when the
        cut got through on a live query, and then the slot's cached value gone. */
    ghost predicate Removed(index: int, ok: bool, payload: seq<byte>, keys: seq<int>, lens: seq<int>, wasChanged: bool)
      reads this, s, s.values, s.ms, s.enumerator, s.enumerator.io, sub, sub.cache
      requires |keys| == |lens| && s.values.Valid()
    {
      var cut := Cut(payload, 0, keys, lens, index);
      && s.LoadedPayload() == Success(cut.buffer)
      && changed == (wasChanged || cut.outcome.Pass?)
      && ok == (cut.outcome.Pass? && sub.cache != null)
      && (ok ==> index !in Entries())
    }

    /** What `TryRemove(index)` answering `ok` leaves, from the payload, directory, dirty flag, view
        and cache it started from: an unlisted slot is `true` and changes nothing; a listed one
        loses its cached value exactly when `ok`; from a payload that loads its bytes are cut as
        `Removed` says, and from one that does not load only a slot without bytes gets through. */
    ghost predicate Dropped(index: int, ok: bool, payload: Result<seq<byte>>, ks: seq<int>, lens: seq<int>,
                            wasChanged: bool, v: SlotView, entries: map<int, Value>)
      reads this, s, s.values, s.ms, s.enumerator, s.enumerator.io, sub, sub.cache
      requires |ks| == |lens| && s.values.Valid()
    {
      && (index !in ks ==> ok && changed == wasChanged && View() == v)
      && (index in ks ==> Entries() == if ok then entries - {index} else entries)
      && (index in ks && payload.Success? ==> Removed(index, ok, payload.value, ks, lens, wasChanged))
      && (index in ks && payload.Failure? ==>
            var bytes := lens[IndexOf(ks, index)] > 0;
            changed == (wasChanged || !bytes) && ok == (!bytes && sub.cache != null))
    }

    /** `TryRemove(index)`, stated from where it started: `Dropped`. */
    method RemoveSlot(index: int) returns (ok: bool)
      requires Valid()
      modifies this, s, s.ms, s.enumerator.io, sub.cache
      ensures Valid() && sub.cache == old(sub.cache) && s.values == old(s.values)
      ensures Dropped(index, ok, old(s.LoadedPayload()), old(s.values.keys), old(s.values.values), old(changed),
                      old(View()), old(Entries()))
    {
      ghost var c := Cursor();
      if index in s.values.keys && s.LoadedPayload().Success? {
        CutIgnoresCursor(s.LoadedPayload().value, 0, c, s.values.keys, s.values.values, index);
      }
      ok := TryRemove(index);
      assert sub.cache == null ==> old(Entries()) == map[] == map[] - {index};
    }

    /** The cut of `TryRemove` on the loaded buffer. */
    method CutLoaded(index: int, gap: int, off: int) returns (r: Outcome)
      requires Valid() && s.ms != null && index in s.values.keys
      requires gap == s.values.values[IndexOf(s.values.keys, index)] && off == SlotOffset(s.values.keys, s.values.values, index)
      requires gap > 0
      modifies s.ms
      ensures Valid()
      ensures Spliced(r, s.ms.data, s.ms.position, s.values.keys, s.values.values)
        == Cut(old(s.ms.data), old(s.ms.position), s.values.keys, s.values.values, index)
    {
      r := CutBytes(s.ms, gap, off, s.values.keys, s.values.values);
      if off + gap >= 0 {
        CutIsTrimmed(old(s.ms.data), old(s.ms.position), s.values.keys, s.values.values, index, off, gap);
      }
    }

    /** `TryClear()`: the buffer is emptied (loading it first), then the cache is cleared and the
        query marked changed; a disposed query has its buffer emptied but answers `false`. */
    method TryClear() returns (ok: bool)
      requires Valid()
      modifies this, s, s.ms, s.enumerator.io, sub.cache
      ensures Valid() && sub.cache == old(sub.cache) && s.values == old(s.values)
      ensures old(s.LoadedPayload()).Failure? ==> !ok && changed == old(changed) && Entries() == old(Entries())
      ensures old(s.LoadedPayload()).Success? ==>
        && s.ms != null && s.ms.data == [] && s.ms.position == 0
        && ok == (sub.cache != null) && changed == (old(changed) || ok) && Entries() == map[]
    {
      var buffer := Load();
      if buffer.Failure? {
        return false;
      }
      Truncate();
      ok := ClearCache();
    }

    /** `io.SetLength(0)` on the loaded buffer. */
    method Truncate()
      requires Valid() && s.ms != null
      modifies s.ms
      ensures Valid() && s.ms.data == [] && s.ms.position == 0
    {
      var r := s.ms.SetLength(0);
    }

    /** `cache.Clear(); changed = true`, which throws before marking the query when it was
        disposed. */
    method ClearCache() returns (ok: bool)
      requires Valid()
      modifies this, sub.cache
      ensures Valid() && sub.cache == old(sub.cache) && saveOnDisposed == old(saveOnDisposed)
      ensures ok == (sub.cache != null) && changed == (old(changed) || ok) && Entries() == map[]
    {
      if sub.cache == null {
        return false;
      }
      sub.cache.entries := map[];
      changed := true;
      return true;
    }

    /** `s.Values.Add(index, length)`: an entry appended to the directory. */
    method List(index: int, length: int)
      requires Valid()
      modifies s.values
      ensures Valid()
      ensures s.values.keys == old(s.values.keys) + [index] && s.values.values == old(s.values.values) + [length]
    {
      s.values.Add(index, length);
    }

    /** `TryRead(index, out buffer)`: an unlisted slot is `false` with no bytes and leaves the
        buffer unloaded; a listed one is read from the loaded payload as `SlotRead` says, its
        exceptions becoming failures. Nothing a later read sees changes. */
    method TryRead(index: int) returns (r: Result<(bool, seq<byte>)>)
      requires Valid()
      modifies s, s.ms, s.enumerator.io
      ensures Valid() && s.values == old(s.values) && sub.cache == old(sub.cache)
      ensures r == ReadView(old(View()), index)
      ensures View() == old(View())
      ensures s.ms == old(s.ms) || fresh(s.ms)
      ensures index !in s.values.keys ==> s.ms == old(s.ms)
    {
      if !s.values.ContainsKey(index) {
        return Success((false, []));
      }
      var buffer := Load();
      if buffer.Failure? {
        return Failure(buffer.error);
      }
      r := ReadLoaded(index);
    }

    /** The read of `TryRead` on the loaded buffer. */
    method ReadLoaded(index: int) returns (r: Result<(bool, seq<byte>)>)
      requires Valid() && s.ms != null && index in s.values.keys
      modifies s.ms
      ensures Valid() && s.ms.data == old(s.ms.data)
      ensures r == SlotRead(s.ms.data, s.values.keys, s.values.values, index)
    {
      r := ReadSlot(s.ms, s.values, index);
    }

    /** What `Save` leaves: nothing when the query was not changed; otherwise what `Update`
        leaves, the file and the sector's bookkeeping as `Persist` says, and the query clean
        again exactly when that succeeded. */
    ghost predicate Saved(r: Outcome, wasChanged: bool, file: seq<byte>, payload: Result<seq<byte>>, position: int,
                          length: int, offset: int, isNew: bool, metadata: seq<byte>)
      reads this, s, s.enumerator, s.enumerator.io
      requires !isNew ==> length > 0
    {
      && changed == (wasChanged && r.Fail?)
      && if !wasChanged || payload.Failure? then
           && r == (if wasChanged then Fail(payload.error) else Pass)
           && s.enumerator.io.data == file && s.length == length && s.offset == offset && s.isNew == isNew
         else
           var p := Persist(file, position, length, offset, isNew, metadata, payload.value);
           && r == p.outcome && s.enumerator.io.data == p.file
           && s.length == p.length && s.offset == p.offset && s.isNew == p.isNew
    }

    /** `Save()`: a changed query updates its sector in the file. */
    method Save() returns (r: Outcome)
      requires Valid()
      modifies this, s, s.enumerator, s.enumerator.io, s.enumerator.subscribers
      ensures Valid() && sub.cache == old(sub.cache) && saveOnDisposed == old(saveOnDisposed)
      ensures s.connected == old(s.connected)
      ensures Saved(r, old(changed), old(s.enumerator.io.data), old(s.LoadedPayload()), old(s.LoadedPosition()),
                    old(s.length), old(s.offset), old(s.isNew), old(s.MetadataBytes()))
    {
      if !changed {
        return Pass;
      }
      r := s.Update();
      if r.Pass? {
        changed := false;
      }
    }

    /** `Deserialize(index, bytes)` decoding as `t`: the cached value of the slot, or `bytes`
        decoded and cached; a disposed query throws. */
    method DeserializeAs(index: int, bytes: seq<byte>, t: TypeTag) returns (r: Result<Value>)
      requires Valid()
      modifies sub.cache
      ensures Valid() && sub.cache == old(sub.cache)
      ensures r == Decoded(old(View()), index, bytes, t)
      ensures View() == Absorbed(old(View()), index, r)
    {
      if sub.cache == null {
        return Failure(NullReference);
      }
      if index in sub.cache.entries {
        return Success(sub.cache.entries[index]);
      }
      r := PreDeserialize(t, bytes, s.enumerator.host);
      if r.Success? {
        sub.cache.entries := sub.cache.entries[index := r.value];
      }
    }

    /** A getter's read of slot `index` as `t`: `TryRead`, an `IOException` when it comes back
        `false`, then `Deserialize`. */
    method ReadValue(index: int, t: TypeTag) returns (r: Result<Value>)
      requires Valid()
      modifies s, s.ms, s.enumerator.io, sub.cache
      ensures Valid() && sub.cache == old(sub.cache) && s.values == old(s.values)
      ensures s.ms == old(s.ms) || fresh(s.ms)
      ensures r == Fetched(old(View()), index, t)
      ensures View() == Absorbed(old(View()), index, r)
    {
      var read := TryRead(index);
      if read.Success? && read.value.0 {
        r := DeserializeAs(index, read.value.1, t);
      } else {
        r := if read.Failure? then Failure(read.error) else Failure(IOError);
      }
    }

    /** `Dispose()`: saves first when asked to (a failed save throws out of it), then drops the
        cache and leaves the sector, which releases its buffer with its last query. */
    method Dispose() returns (r: Outcome)
      requires Valid()
      modifies this, s, s.enumerator, s.enumerator.io, s.enumerator.subscribers, sub
      ensures Valid()
      ensures saveOnDisposed ==>
        Saved(r, old(changed), old(s.enumerator.io.data), old(s.LoadedPayload()), old(s.LoadedPosition()),
              old(s.length), old(s.offset), old(s.isNew), old(s.MetadataBytes()))
      ensures !saveOnDisposed ==>
        r == Pass && changed == old(changed) && s.enumerator.io.data == old(s.enumerator.io.data)
      ensures r.Fail? ==> sub.cache == old(sub.cache) && s.connected == old(s.connected)
      ensures r.Pass? ==> sub.cache == null && s.connected == old(s.connected) - 1
      ensures r.Pass? && s.connected == 0 ==> s.ms == null
    {
      if saveOnDisposed {
        r := Save();
        if r.Fail? {
          return;
        }
      }
      r := Pass;
      Leave();
    }

    /** The end of `Dispose`: `cache = null; s.Connected--`. */
    method Leave()
      requires Valid()
      modifies this, s, sub
      ensures Valid() && sub.cache == null && changed == old(changed) && saveOnDisposed == old(saveOnDisposed)
      ensures s.connected == old(s.connected) - 1 && (s.connected == 0 ==> s.ms == null)
      ensures s.length == old(s.length) && s.offset == old(s.offset) && s.isNew == old(s.isNew)
    {
      sub.cache := null;
      s.SetConnected(s.connected - 1);
    }
  }
}
