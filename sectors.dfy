/** Sectors and the catalog that owns them. A sector is one named, typed record of the file; the
    catalog (`SectorEnumerator`) scans the file, resolves names to sectors, and broadcasts moves
    and changes to every sector it has built. The C# events become explicit updates over the
    catalog's `subscribers`, the sectors whose handlers are registered. */
module Sectors {
  import opened Wrappers
  import opened Bytes
  import opened Text
  import opened Codec
  import opened SlotDirectory
  import opened Streams
  import opened Records

  /** A query's deserialisation cache, `Dictionary<int, T>`, tagged with its `T`. */
  class SlotCache {
    const elementType: TypeTag
    var entries: map<int, Value>

    constructor(elementType: TypeTag)
      ensures this.elementType == elementType && entries == map[]
    {
      this.elementType := elementType;
      entries := map[];
    }
  }

  /** The `cache` field of a query, as the sector's `Updated` handler reassigns it. */
  class Subscription {
    const elementType: TypeTag
    var cache: SlotCache?

    constructor(elementType: TypeTag, cache: SlotCache?)
      ensures this.elementType == elementType && this.cache == cache
    {
      this.elementType := elementType;
      this.cache := cache;
    }
  }

  /** `obj as Dictionary<int, T>`: the cache itself when its element type is `T`, otherwise null. */
  function CastCache(o: SlotCache?, elementType: TypeTag): (c: SlotCache?)
    ensures c != null <==> o != null && o.elementType == elementType
    ensures c != null ==> c == o
  {
    if o != null && o.elementType == elementType then o else null
  }

  /** The payload the catalog buffers for a sector: `Length - metadata.Length` bytes (none when
      `Length` is 0) read from `Offset + metadata.Length` into a zeroed buffer. A negative size
      cannot be allocated; a negative position cannot be sought. */
  function RequestedPayload(data: seq<byte>, offset: int, length: int, metadata: seq<byte>): (r: Result<seq<byte>>)
    ensures r.Success? <==> (length == 0 || length >= |metadata|) && offset + |metadata| >= 0
    ensures r.Success? ==> |r.value| == if length == 0 then 0 else length - |metadata|
    ensures r.Failure? ==> r.error == if length != 0 && length < |metadata| then Overflow else IOError
  {
    var size := if length == 0 then 0 else length - |metadata|;
    if size < 0 then Failure(Overflow)
    else if offset + |metadata| < 0 then Failure(IOError)
    else Success(Window(data, offset + |metadata|, size))
  }

  /** The bytes the first pass of the block-copy loop reads: a block, or the whole tail when it
      is shorter. */
  function FirstBlock(left: int): int
  {
    if BLOCK_SIZE > left then left else BLOCK_SIZE
  }

  /** The file, the cursor and the outcome after one phase of `Update`. */
  datatype Step = Step(outcome: Outcome, file: seq<byte>, position: int)

  /** The block-copy loop of `Update` sliding the tail `f[end..]` back to `start`, with the cursor
      at `pos` before it: seek to `end`, read a block, seek back, write it, and so on. A negative
      `end` cannot be sought; a tail that starts past the file end is a negative read count; a
      negative `start` fails when seeking back after the first read. */
  function Slid(f: seq<byte>, pos: int, start: int, end: int): (r: Step)
    requires start < end
    ensures r.outcome.Pass? <==> 0 <= start && 0 <= end <= |f|
    ensures r.outcome.Pass? ==> r.file == TailCopied(f, start, end) && r.position == start + |f| - end
    ensures r.outcome.Fail? ==> r.file == f
  {
    if end < 0 then Step(Fail(IOError), f, pos)
    else if end > |f| then Step(Fail(ArgumentError), f, end)
    else if start < 0 then Step(Fail(IOError), f, end + FirstBlock(|f| - end))
    else Step(Pass, TailCopied(f, start, end), start + |f| - end)
  }

  /** The first phase of `Update` for a sector with total `length` and body offset `offset`,
      whose new total is `total`: a new sector goes to the file end; a persisted one whose size
      changed has the records after it slid back over it and goes after them; otherwise it is
      rewritten where it starts. */
  function Placement(f: seq<byte>, pos: int, length: int, offset: int, isNew: bool, total: int): (r: Step)
    requires !isNew ==> length > 0
    ensures r.outcome.Fail? ==> r.file == f
    ensures r.outcome.Pass? && isNew ==> r.file == f && r.position == |f|
    ensures r.outcome.Pass? && !isNew && total == length ==> r.file == f && r.position == offset - 4
  {
    if isNew then Step(Pass, f, |f|)
    else if total != length then Slid(f, pos, offset - 4, offset + length)
    else if offset - 4 < 0 then Step(Fail(IOError), f, pos)
    else Step(Pass, f, offset - 4)
  }

  /** The bookkeeping of a sector after `Update`. */
  datatype Bookkeeping = Bookkeeping(length: int, offset: int, isNew: bool)

  /** The second phase of `Update` for an empty payload, with the cursor at `at` of file `g`: a
      new sector has nothing to delete; a persisted one cuts `Length + 4` bytes off the end of the
      file and becomes new again, keeping its stale `Length` and `Offset`. */
  function Deleted(g: seq<byte>, at: int, length: int, offset: int, isNew: bool): (Step, Bookkeeping)
  {
    if isNew then (Step(Pass, g, at), Bookkeeping(length, offset, true))
    else if length > 0 then
      var n := |g| - length - 4;
      if n < 0 then (Step(Fail(ArgumentError), g, at), Bookkeeping(length, offset, false))
      else (Step(Pass, Resized(g, n), if at > n then n else at), Bookkeeping(length, offset, true))
    else (Step(Pass, g, at), Bookkeeping(length, offset, true))
  }

  /** The file side of the write branch of `Update`: the record goes out at the cursor, then the
      file is cut by the shrinkage when the new total is below the old `length`; a cut below zero
      throws. */
  function Appended(g: seq<byte>, at: nat, length: int, metadata: seq<byte>, payload: seq<byte>): Step
  {
    var total := |metadata| + |payload|;
    var written := Overwrite(g, at, Record(metadata, payload));
    var after := at + 4 + total;
    if total < length then
      var n := |written| - length + total;
      if n < 0 then Step(Fail(ArgumentError), written, after)
      else Step(Pass, Resized(written, n), if after > n then n else after)
    else Step(Pass, written, after)
  }

  /** The second phase of `Update` for a non-empty payload: the record is appended as above, and
      the offset is set as if the record were the last one of the file. */
  function Written(g: seq<byte>, at: int, length: int, offset: int, isNew: bool,
                   metadata: seq<byte>, payload: seq<byte>): (Step, Bookkeeping)
    requires at >= 0
  {
    var st := Appended(g, at, length, metadata, payload);
    var total := |metadata| + |payload|;
    (st, if st.outcome.Pass? then Bookkeeping(total, |st.file| - total, false) else Bookkeeping(length, offset, isNew))
  }

  /** The second phase of `Update`: delete on an empty payload, write otherwise. */
  function Stored(g: seq<byte>, at: int, length: int, offset: int, isNew: bool,
                  metadata: seq<byte>, payload: seq<byte>): (Step, Bookkeeping)
    requires at >= 0
  {
    if |payload| == 0 then Deleted(g, at, length, offset, isNew)
    else Written(g, at, length, offset, isNew, metadata, payload)
  }

  /** Where `Update` leaves the file, the file cursor and the sector's bookkeeping, and whether it
      went through the relocating branch (and so broadcast a move). */
  datatype Persisted = Persisted(outcome: Outcome, file: seq<byte>, position: int,
                                 length: int, offset: int, isNew: bool, moved: bool)

  /** `Sector.Update` on file `f` with cursor `pos`, for a sector with the given bookkeeping,
      metadata and buffered payload. */
  function Persist(f: seq<byte>, pos: int, length: int, offset: int, isNew: bool,
                   metadata: seq<byte>, payload: seq<byte>): Persisted
    requires !isNew ==> length > 0
  {
    var total := |metadata| + |payload|;
    var placed := Placement(f, pos, length, offset, isNew, total);
    if placed.outcome.Fail? then Persisted(placed.outcome, f, placed.position, length, offset, isNew, false)
    else
      var moved := !isNew && total != length;
      var (stored, book) := Stored(placed.file, placed.position, length, offset, isNew, metadata, payload);
      Persisted(stored.outcome, stored.file, stored.position, book.length, book.offset, book.isNew, moved)
  }

  /** Three consecutive writes are one write of the concatenation. */
  lemma WrittenInParts(g: seq<byte>, at: nat, head: seq<byte>, metadata: seq<byte>, payload: seq<byte>)
    ensures Overwrite(Overwrite(Overwrite(g, at, head), at + |head|, metadata), at + |head| + |metadata|, payload)
         == Overwrite(g, at, head + metadata + payload)
  {
    OverwriteConcat(g, at, head, metadata);
    OverwriteConcat(g, at, head + metadata, payload);
  }

  /** The three writes of `Update`: the total, the metadata, then the whole buffer. */
  method WriteParts(io: ByteStream, head: seq<byte>, metadata: seq<byte>, buffer: ByteStream)
    requires io.Valid() && buffer.Valid() && io != buffer
    modifies io
    ensures io.Valid()
    ensures io.data == Overwrite(old(io.data), old(io.position), head + metadata + buffer.data)
    ensures io.position == old(io.position) + |head| + |metadata| + |buffer.data|
  {
    ghost var g, at := io.data, io.position;
    io.Write(head);
    io.Write(metadata);
    buffer.WriteTo(io);
    WrittenInParts(g, at, head, metadata, buffer.data);
  }

  /** The write branch of `Update` on the file. */
  method AppendRecord(io: ByteStream, metadata: seq<byte>, buffer: ByteStream, length: int) returns (r: Outcome)
    requires io.Valid() && buffer.Valid() && io != buffer
    modifies io
    ensures io.Valid()
    ensures var st := Appended(old(io.data), old(io.position), length, metadata, buffer.data);
      r == st.outcome && io.data == st.file && io.position == st.position
  {
    var total := |metadata| + buffer.Length();
    WriteParts(io, LE(total, 4), metadata, buffer);
    assert LE(total, 4) + metadata + buffer.data == Record(metadata, buffer.data);
    r := ShrinkBy(io, length, total);
  }

  /** The cut after the write: `SetLength(io.Length - length + total)` when the record shrank. */
  method ShrinkBy(io: ByteStream, length: int, total: int) returns (r: Outcome)
    requires io.Valid()
    modifies io
    ensures io.Valid()
    ensures total < length ==> var n := |old(io.data)| - length + total;
      && (r.Pass? <==> n >= 0)
      && (r.Pass? ==> io.data == Resized(old(io.data), n) && io.position == if old(io.position) > n then n else old(io.position))
      && (r.Fail? ==> r.error == ArgumentError && io.data == old(io.data) && io.position == old(io.position))
    ensures total >= length ==> r == Pass && io.data == old(io.data) && io.position == old(io.position)
  {
    if total < length {
      r := io.SetLength(io.Length() - length + total);
      return;
    }
    return Pass;
  }

  /** The do-while block-copy loop of `Update`: `left` bytes after `end` are read a block at a
      time and written back from `start`, the read resuming wherever the write left the cursor. */
  method SlideBack(io: ByteStream, start: int, end: int) returns (r: Outcome)
    requires io.Valid() && start < end
    modifies io
    ensures io.Valid()
    ensures var s := Slid(old(io.data), old(io.position), start, end);
      r == s.outcome && io.data == s.file && io.position == s.position
  {
    ghost var f := io.data;
    var left := |io.data| - end;
    var sk := io.Seek(end);
    if sk.Fail? {
      return Fail(IOError);
    }
    var got := io.Read(FirstBlock(left));
    if got.Failure? {
      return Fail(ArgumentError);
    }
    sk := io.Seek(start);
    if sk.Fail? {
      return Fail(IOError);
    }
    FirstPass(f, start, end, got.value);
    io.Write(got.value);
    LaterPasses(io, start, |got.value|, left - |got.value|);
    return Pass;
  }

  /** The first pass of the block-copy loop writes the first block of the tail at `start`. */
  lemma FirstPass(f: seq<byte>, start: int, end: int, block: seq<byte>)
    requires 0 <= start < end <= |f|
    requires |block| == ReadCount(|f|, end, FirstBlock(|f| - end))
    requires |block| > 0 ==> block == f[end..end + |block|]
    ensures Overwrite(f, start, block) == TailCopied(f, start, end)
  {
    assert block == f[end..end + FirstBlock(|f| - end)];
    OverwriteInside(f, start, block);
  }

  /** The passes of the block-copy loop after the first: the cursor is where the last write
      left it, `total` bytes after `start`, so each pass reads the bytes under the cursor and writes
      them back where they were. */
  method LaterPasses(io: ByteStream, start: int, total: int, left: int)
    requires io.Valid() && 0 <= start && 0 <= total && 0 <= left
    requires io.position == start + total && start + total + left <= |io.data|
    modifies io
    ensures io.Valid() && io.data == old(io.data) && io.position == start + total + left
  {
    ghost var g := io.data;
    var done, rest := total, left;
    while rest > 0
      invariant io.Valid() && io.data == g
      invariant 0 <= rest && done + rest == total + left
      invariant io.position == start + done
      decreases rest
    {
      var n := RewritePass(io, start + done, rest);
      done := done + n;
      rest := rest - n;
    }
  }

  /** One later pass: read a block at the cursor `p`, seek back to `p`, write it there. */
  method RewritePass(io: ByteStream, p: int, rest: int) returns (n: int)
    requires io.Valid() && 0 <= p && 0 < rest && p + rest <= |io.data|
    requires io.position == p
    modifies io
    ensures io.Valid() && io.data == old(io.data)
    ensures n == FirstBlock(rest) && 0 < n <= rest && io.position == p + n
  {
    ghost var g := io.data;
    var got := io.Read(FirstBlock(rest));
    var _ := io.Seek(p);
    OverwriteSame(g, p, got.value);
    io.Write(got.value);
    n := |got.value|;
  }

  class Sector {
    const name: string
    const kind: byte
    const enumerator: SectorEnumerator
    /** Bytes after the 4-byte total: metadata plus payload (0 for a sector never written). */
    var length: int
    /** Position of the first byte after the 4-byte total. */
    var offset: int
    var isNew: bool
    var connected: int
    var values: OrderedDictionary
    /** The buffered payload, loaded on first use and dropped when no query is connected. */
    var ms: ByteStream?
    /** The queries registered on `Updated`. */
    var listeners: seq<Subscription>

    function Start(): int
      reads this
    {
      offset - 4
    }

    function End(): int
      reads this
    {
      offset + length
    }

    /** `Equals`: same name and same type; offsets and contents do not matter. */
    predicate Equals(other: Sector)
    {
      other.name == name && other.kind == kind
    }

    /** The `Metadata` getter on the current directory. */
    function MetadataBytes(): seq<byte>
      reads this, values
      requires values.Valid()
    {
      Metadata(kind, name, values.keys, values.values)
    }

    /** The payload `Update` works with: the buffer if loaded, otherwise what loading it reads. */
    ghost function LoadedPayload(): Result<seq<byte>>
      reads this, values, ms, enumerator.io
      requires values.Valid()
    {
      if ms != null then Success(ms.data)
      else RequestedPayload(enumerator.io.data, offset, length, MetadataBytes())
    }

    /** The file cursor once the buffer is loaded. */
    ghost function LoadedPosition(): int
      reads this, values, ms, enumerator.io
      requires values.Valid()
    {
      var io := enumerator.io;
      var p := offset + |MetadataBytes()|;
      if ms != null || RequestedPayload(io.data, offset, length, MetadataBytes()).Failure? then io.position
      else p + ReadCount(|io.data|, p, |RequestedPayload(io.data, offset, length, MetadataBytes()).value|)
    }

    /** `new Sector(end, name, type, se)`: a sector not yet in the file, placed after its end. */
    constructor New(end: int, name: string, kind: byte, se: SectorEnumerator)
      modifies se
      ensures this.name == name && this.kind == kind && enumerator == se
      ensures length == 0 && offset == end + 4 && isNew && connected == 0
      ensures fresh(values) && values.Valid() && values.keys == [] && values.values == []
      ensures ms == null && listeners == []
      ensures se.subscribers == old(se.subscribers) + [this] && se.cache == old(se.cache)
    {
      this.name := name;
      this.kind := kind;
      enumerator := se;
      length := 0;
      offset := end + 4;
      isNew := true;
      connected := 0;
      values := new OrderedDictionary();
      ms := null;
      listeners := [];
      new;
      se.subscribers := se.subscribers + [this];
    }

    /** `new Sector(end, length, bytes, se)` once the body has been read as `info`: the body ends
        at `end`, so it starts at `end - length`. */
    constructor Parsed(end: int, length: int, info: RecordInfo, se: SectorEnumerator)
      requires |info.keys| == |info.lens|
      modifies se
      ensures name == info.name && kind == info.kind && enumerator == se
      ensures this.length == length && offset == end - length && !isNew && connected == 0
      ensures fresh(values) && values.Valid() && values.keys == info.keys && values.values == info.lens
      ensures ms == null && listeners == []
      ensures se.subscribers == old(se.subscribers) + [this] && se.cache == old(se.cache)
    {
      name := info.name;
      kind := info.kind;
      enumerator := se;
      this.length := length;
      offset := end - length;
      isNew := false;
      connected := 0;
      values := new OrderedDictionary.Of(info.keys, info.lens);
      ms := null;
      listeners := [];
      new;
      se.subscribers := se.subscribers + [this];
    }

    /** The `Connected` setter: the buffer is released when the last query leaves. */
    method SetConnected(n: int)
      requires enumerator.Valid() && this in enumerator.subscribers
      modifies this
      ensures enumerator.Valid()
      ensures connected == n
      ensures ms == if n == 0 then null else old(ms)
      ensures length == old(length) && offset == old(offset) && isNew == old(isNew)
      ensures values == old(values) && listeners == old(listeners)
    {
      connected := n;
      if n == 0 && ms != null {
        ms := null;
      }
    }

    /** The `Stream` getter: the buffer, loaded from the file the first time. */
    method Stream() returns (r: Result<ByteStream>)
      requires enumerator.Valid() && this in enumerator.subscribers
      modifies this, enumerator.io
      ensures enumerator.Valid()
      ensures r.Success? <==> old(LoadedPayload()).Success?
      ensures r.Failure? ==> r.error == old(LoadedPayload()).error && ms == null
      ensures r.Success? ==> ms == r.value && ms.data == old(LoadedPayload()).value
      ensures old(ms) != null ==> ms == old(ms)
      ensures old(ms) == null && r.Success? ==> fresh(ms) && ms.position == |ms.data|
      ensures enumerator.io.data == old(enumerator.io.data)
      ensures enumerator.io.position == old(LoadedPosition())
      ensures length == old(length) && offset == old(offset) && isNew == old(isNew)
      ensures connected == old(connected) && values == old(values) && listeners == old(listeners)
    {
      if ms == null {
        var loaded := enumerator.RequestMemoryStream(this);
        if loaded.Failure? {
          return Failure(loaded.error);
        }
        ms := loaded.value;
      }
      return Success(ms);
    }

    /** `Update`: persists the buffered payload (loading it first if need be) under the current
        directory, and leaves the file, the cursor and the bookkeeping as `Persist` says. When the
        record moved, the catalog puts this sector last and every other sector after it shifts. */
    method Update() returns (r: Outcome)
      requires enumerator.Valid() && this in enumerator.subscribers
      modifies this, enumerator.io, enumerator, enumerator.subscribers
      ensures enumerator.Valid()
      ensures old(LoadedPayload()).Failure? ==>
        && r == Fail(old(LoadedPayload()).error)
        && enumerator.io.data == old(enumerator.io.data)
        && length == old(length) && offset == old(offset) && isNew == old(isNew)
        && enumerator.cache == old(enumerator.cache)
      ensures old(LoadedPayload()).Success? ==>
        var p := Persist(old(enumerator.io.data), old(LoadedPosition()), old(length), old(offset), old(isNew),
                         old(MetadataBytes()), old(LoadedPayload()).value);
        && r == p.outcome && enumerator.io.data == p.file && enumerator.io.position == p.position
        && length == p.length && offset == p.offset && isNew == p.isNew
        && ms != null && ms.data == old(LoadedPayload()).value
        && enumerator.cache == (if p.moved then MovedToEnd(old(enumerator.cache), this) else old(enumerator.cache))
        && (forall t :: t in old(enumerator.subscribers) && t != this ==>
              t.offset == if p.moved then MovedOffset(old(t.offset), old(offset), old(length)) else old(t.offset))
      ensures enumerator.subscribers == old(enumerator.subscribers)
      ensures forall t :: t in old(enumerator.subscribers) && t != this ==>
        && t.length == old(t.length) && t.isNew == old(t.isNew) && t.connected == old(t.connected)
        && t.values == old(t.values) && t.ms == old(t.ms) && t.listeners == old(t.listeners)
      ensures values == old(values) && connected == old(connected) && listeners == old(listeners)
    {
      var buffer := Stream();
      if buffer.Failure? {
        return Fail(buffer.error);
      }
      var metadata := MetadataBytes();
      r := Place(|buffer.value.data| + |metadata|);
      if r.Fail? {
        return;
      }
      r := Store(metadata);
    }

    /** The seek phase of `Update` for a new total of `total` bytes. */
    method Place(total: int) returns (r: Outcome)
      requires enumerator.Valid() && this in enumerator.subscribers
      modifies enumerator.io, enumerator, enumerator.subscribers
      ensures enumerator.Valid()
      ensures enumerator.subscribers == old(enumerator.subscribers)
      ensures forall t :: t in old(enumerator.subscribers) ==>
        && t.length == old(t.length) && t.isNew == old(t.isNew) && t.connected == old(t.connected)
        && t.values == old(t.values) && t.ms == old(t.ms) && t.listeners == old(t.listeners)
      ensures var p := Placement(old(enumerator.io.data), old(enumerator.io.position), old(length), old(offset), old(isNew), total);
        r == p.outcome && enumerator.io.data == p.file && enumerator.io.position == p.position
      ensures var moved := r.Pass? && !old(isNew) && total != old(length);
        && enumerator.cache == (if moved then MovedToEnd(old(enumerator.cache), this) else old(enumerator.cache))
        && (forall t :: t in old(enumerator.subscribers) ==>
              t.offset == if moved && t != this then MovedOffset(old(t.offset), old(offset), old(length)) else old(t.offset))
    {
      if isNew {
        r := SeekToEnd();
      } else if total != length {
        r := Move(total);
      } else {
        r := Rewind();
      }
    }

    /** The seek phase for a sector never written: to the end of the file. */
    method SeekToEnd() returns (r: Outcome)
      requires enumerator.Valid()
      modifies enumerator.io
      ensures enumerator.Valid()
      ensures r == Pass && enumerator.io.data == old(enumerator.io.data) && enumerator.io.position == |enumerator.io.data|
    {
      enumerator.io.SeekEnd();
      r := Pass;
    }

    /** The equal-size branch of the seek phase: back to where this record starts. */
    method Rewind() returns (r: Outcome)
      requires enumerator.Valid() && this in enumerator.subscribers && !isNew
      modifies enumerator.io
      ensures enumerator.Valid()
      ensures var p := Placement(old(enumerator.io.data), old(enumerator.io.position), length, offset, false, length);
        r == p.outcome && enumerator.io.data == p.file && enumerator.io.position == p.position
    {
      r := enumerator.io.Seek(Start());
    }

    /** `Relocate`, stated in the terms of `Place`. */
    method Move(total: int) returns (r: Outcome)
      requires enumerator.Valid() && this in enumerator.subscribers && !isNew && total != length
      modifies enumerator.io, enumerator, enumerator.subscribers
      ensures enumerator.Valid()
      ensures enumerator.subscribers == old(enumerator.subscribers)
      ensures forall t :: t in old(enumerator.subscribers) ==>
        && t.length == old(t.length) && t.isNew == old(t.isNew) && t.connected == old(t.connected)
        && t.values == old(t.values) && t.ms == old(t.ms) && t.listeners == old(t.listeners)
      ensures var p := Placement(old(enumerator.io.data), old(enumerator.io.position), old(length), old(offset), old(isNew), total);
        r == p.outcome && enumerator.io.data == p.file && enumerator.io.position == p.position
      ensures var moved := r.Pass? && !old(isNew) && total != old(length);
        && enumerator.cache == (if moved then MovedToEnd(old(enumerator.cache), this) else old(enumerator.cache))
        && (forall t :: t in old(enumerator.subscribers) ==>
              t.offset == if moved && t != this then MovedOffset(old(t.offset), old(offset), old(length)) else old(t.offset))
    {
      assert Start() == offset - 4 && End() == offset + length;
      r := Relocate();
    }

    /** The size-changing branch of the seek phase: slide the records after this one back over it,
        then broadcast the move. */
    method Relocate() returns (r: Outcome)
      requires enumerator.Valid() && this in enumerator.subscribers && !isNew
      modifies enumerator.io, enumerator, enumerator.subscribers
      ensures enumerator.Valid()
      ensures enumerator.subscribers == old(enumerator.subscribers)
      ensures forall t :: t in old(enumerator.subscribers) ==>
        && t.length == old(t.length) && t.isNew == old(t.isNew) && t.connected == old(t.connected)
        && t.values == old(t.values) && t.ms == old(t.ms) && t.listeners == old(t.listeners)
      ensures var p := Slid(old(enumerator.io.data), old(enumerator.io.position), old(Start()), old(End()));
        r == p.outcome && enumerator.io.data == p.file && enumerator.io.position == p.position
      ensures enumerator.cache == (if r.Pass? then MovedToEnd(old(enumerator.cache), this) else old(enumerator.cache))
      ensures forall t :: t in old(enumerator.subscribers) ==>
        t.offset == if r.Pass? && t != this then MovedOffset(old(t.offset), old(offset), old(length)) else old(t.offset)
    {
      r := SlideBack(enumerator.io, Start(), End());
      if r.Pass? {
        enumerator.UpdateSectorMoved(this, offset, length);
      }
    }

    /** The write phase of `Update`, with the cursor where `Place` left it. */
    method Store(metadata: seq<byte>) returns (r: Outcome)
      requires enumerator.Valid() && this in enumerator.subscribers && ms != null
      modifies this, enumerator.io
      ensures enumerator.Valid()
      ensures ms == old(ms) && ms.data == old(ms.data)
      ensures var (st, book) := Stored(old(enumerator.io.data), old(enumerator.io.position), old(length), old(offset),
                                       old(isNew), metadata, ms.data);
        && r == st.outcome && enumerator.io.data == st.file && enumerator.io.position == st.position
        && length == book.length && offset == book.offset && isNew == book.isNew
      ensures connected == old(connected) && values == old(values) && listeners == old(listeners)
    {
      if ms.Length() == 0 {
        r := Delete();
      } else {
        r := WriteRecord(metadata);
      }
    }

    /** The delete branch of the write phase. */
    method Delete() returns (r: Outcome)
      requires enumerator.Valid() && this in enumerator.subscribers
      modifies this, enumerator.io
      ensures enumerator.Valid()
      ensures var (st, book) := Deleted(old(enumerator.io.data), old(enumerator.io.position), old(length), old(offset), old(isNew));
        && r == st.outcome && enumerator.io.data == st.file && enumerator.io.position == st.position
        && length == book.length && offset == book.offset && isNew == book.isNew
      ensures ms == old(ms) && connected == old(connected) && values == old(values) && listeners == old(listeners)
    {
      if isNew {
        return Pass;
      }
      if length > 0 {
        r := enumerator.io.SetLength(enumerator.io.Length() - length - 4);
        if r.Fail? {
          return;
        }
      }
      isNew := true;
      return Pass;
    }

    /** The write branch of the write phase: total, metadata and buffer go out at the cursor. */
    method WriteRecord(metadata: seq<byte>) returns (r: Outcome)
      requires enumerator.Valid() && this in enumerator.subscribers && ms != null && |ms.data| > 0
      modifies this, enumerator.io
      ensures enumerator.Valid()
      ensures ms == old(ms) && ms.data == old(ms.data)
      ensures var (st, book) := Written(old(enumerator.io.data), old(enumerator.io.position), old(length), old(offset),
                                        old(isNew), metadata, ms.data);
        && r == st.outcome && enumerator.io.data == st.file && enumerator.io.position == st.position
        && length == book.length && offset == book.offset && isNew == book.isNew
      ensures connected == old(connected) && values == old(values) && listeners == old(listeners)
    {
      r := AppendRecord(enumerator.io, metadata, ms, length);
      if r.Pass? {
        length := ms.Length() + |metadata|;
        offset := enumerator.io.Length() - length;
        isNew := false;
      }
    }
  }

  /** The index of the first sector in `xs` with the given name and type, or -1. */
  function FindSector(xs: seq<Sector>, name: string, kind: byte): (i: int)
    ensures -1 <= i < |xs|
    ensures i >= 0 ==> xs[i].name == name && xs[i].kind == kind
    ensures i >= 0 ==> forall j :: 0 <= j < i ==> !(xs[j].name == name && xs[j].kind == kind)
    ensures i == -1 <==> forall j :: 0 <= j < |xs| ==> !(xs[j].name == name && xs[j].kind == kind)
  {
    if |xs| == 0 then -1
    else if xs[0].name == name && xs[0].kind == kind then 0
    else
      var i := FindSector(xs[1..], name, kind);
      if i == -1 then -1 else i + 1
  }

  /** `List<Sector>.Remove(s)`: drops the first member equal to `s` (same name and type). */
  function RemoveFirstEqual(xs: seq<Sector>, s: Sector): seq<Sector>
  {
    var i := FindSector(xs, s.name, s.kind);
    if i == -1 then xs else xs[..i] + xs[i + 1..]
  }

  /** The reorder of both `UpdateSector` overloads: `Remove(s)` then `Add(s)`. */
  function MovedToEnd(xs: seq<Sector>, s: Sector): seq<Sector>
  {
    RemoveFirstEqual(xs, s) + [s]
  }

  /** A sector as the parse constructor builds it from a scanned record. */
  predicate BuiltFrom(s: Sector, r: ScannedRecord, e: SectorEnumerator)
    reads s, s.values
  {
    && s.name == r.info.name && s.kind == r.info.kind && s.enumerator == e
    && s.length == r.length && s.offset == r.offset && !s.isNew && s.connected == 0
    && s.ms == null && s.listeners == []
    && s.values.keys == r.info.keys && s.values.values == r.info.lens
  }

  /** Sectors built from records, one for one. */
  ghost predicate AllBuilt(sectors: seq<Sector>, rs: seq<ScannedRecord>, e: SectorEnumerator)
    reads sectors, set s | s in sectors :: s.values
  {
    |sectors| == |rs| && forall i :: 0 <= i < |rs| ==> BuiltFrom(sectors[i], rs[i], e)
  }

  /** One turn of the catalog's read loop: no header left, a framing error, a body the parse
      constructor rejects, or a new sector. */
  datatype Scanned =
    | Finished
    | Broken(error: Error)
    | Unparsed(frame: Frame, error: Error)
    | Found(frame: Frame, info: RecordInfo, sector: Sector)

  /** The sectors of the read loop, with the one its last turn found. */
  function Pending(sectors: seq<Sector>, step: Scanned): seq<Sector>
  {
    if step.Found? then sectors + [step.sector] else sectors
  }

  /** The records of the read loop, with the one its last turn found. */
  function PendingRecords(rs: seq<ScannedRecord>, step: Scanned): seq<ScannedRecord>
  {
    if step.Found? then rs + [ScannedRecord(step.info, step.frame.length, step.frame.offset)] else rs
  }

  /** The sector a turn found, built from its record, extends the built list. */
  lemma AllBuiltPending(sectors: seq<Sector>, rs: seq<ScannedRecord>, step: Scanned, e: SectorEnumerator)
    requires AllBuilt(sectors, rs, e)
    requires step.Found? ==> BuiltFrom(step.sector, ScannedRecord(step.info, step.frame.length, step.frame.offset), e)
    ensures AllBuilt(Pending(sectors, step), PendingRecords(rs, step), e)
  {
  }

  /** `f` is the first frame of the framing at `at`. */
  ghost predicate FirstFrame(data: seq<byte>, at: nat, f: Frame)
  {
    && f.offset == at + 4 && 0 < f.length && f.offset + f.length <= |data|
    && Frames(data, at) == ([f] + Frames(data, f.offset + f.length).0, Frames(data, f.offset + f.length).1)
  }

  /** What a turn of the read loop from `at` found, in terms of the framing and the parse. */
  ghost predicate Continues(data: seq<byte>, at: nat, step: Scanned, parse: seq<byte> -> Result<RecordInfo>)
  {
    match step
    case Finished => Frames(data, at) == ([], None)
    case Broken(e) => Frames(data, at) == ([], Some(e))
    case Unparsed(f, e) =>
      FirstFrame(data, at, f) && parse(data[f.offset..f.offset + f.length]) == Failure(e)
    case Found(f, info, _) =>
      FirstFrame(data, at, f) && parse(data[f.offset..f.offset + f.length]) == Success(info)
  }

  class SectorEnumerator {
    const io: ByteStream
    const host: HostCodec
    /** The catalog list. */
    var cache: seq<Sector>
    /** Every sector built on this catalog, in construction order: the handlers of its events. */
    var subscribers: seq<Sector>

    ghost function Directories(): set<OrderedDictionary>
      reads this, subscribers
    {
      set s | s in subscribers :: s.values
    }

    ghost function Buffers(): set<ByteStream>
      reads this, subscribers
    {
      set s | s in subscribers && s.ms != null :: s.ms
    }

    /** The listeners of every sector equal to `s`: the queries an `UpdateSector(s, o)` reaches. */
    function Listeners(s: Sector): set<Subscription>
      reads this, subscribers
    {
      set t, l | t in subscribers && t.Equals(s) && l in t.listeners :: l
    }

    ghost predicate Valid()
      reads this, io, subscribers, Directories(), Buffers()
    {
      && io.Valid()
      && (forall i, j :: 0 <= i < j < |subscribers| ==> subscribers[i] != subscribers[j])
      && (forall s :: s in cache ==> s in subscribers)
      && (forall s :: s in subscribers ==>
            && s.enumerator == this
            && s.values.Valid()
            && (!s.isNew ==> s.length > 0)
            && (s.ms != null ==> s.ms != io && s.ms.Valid()))
    }

    constructor(io: ByteStream, host: HostCodec)
      requires io.Valid()
      ensures this.io == io && this.host == host && cache == [] && subscribers == []
      ensures Valid()
    {
      this.io := io;
      this.host := host;
      cache := [];
      subscribers := [];
    }

    /** `new SectorEnumerator(stream, core)`: the catalog of the file read from the cursor, ordered
        by offset; the scan's first error is thrown. */
    static method Open(io: ByteStream, host: HostCodec) returns (r: Result<SectorEnumerator>)
      requires io.Valid()
      modifies io
      ensures io.data == old(io.data)
      ensures var want := ScanRecords(old(io.data), old(io.position));
        && (r.Success? <==> want.Success?)
        && (r.Failure? ==> r.error == want.error)
        && (r.Success? ==>
              && fresh(r.value) && r.value.Valid() && r.value.io == io && r.value.host == host
              && r.value.cache == r.value.subscribers && AllBuilt(r.value.cache, want.value, r.value)
              && forall i, j :: 0 <= i < j < |r.value.cache| ==> r.value.cache[i].offset < r.value.cache[j].offset)
    {
      ParseRecordShape();
      r := OpenWith(io, host, ParseRecord);
    }

    /** The constructor with `parse` reading each record body. */
    static method OpenWith(io: ByteStream, host: HostCodec, parse: seq<byte> -> Result<RecordInfo>)
      returns (r: Result<SectorEnumerator>)
      requires io.Valid()
      requires forall b :: parse(b).Success? ==> |parse(b).value.keys| == |parse(b).value.lens|
      requires forall b :: |b| < 4 ==> parse(b).Failure?
      modifies io
      ensures io.data == old(io.data)
      ensures var want := Scan(old(io.data), old(io.position), parse);
        && (r.Success? <==> want.Success?)
        && (r.Failure? ==> r.error == want.error)
        && (r.Success? ==>
              && fresh(r.value) && r.value.Valid() && r.value.io == io && r.value.host == host
              && r.value.cache == r.value.subscribers && AllBuilt(r.value.cache, want.value, r.value)
              && forall i, j :: 0 <= i < j < |r.value.cache| ==> r.value.cache[i].offset < r.value.cache[j].offset)
    {
      var e := new SectorEnumerator(io, host);
      var read := e.Read(parse);
      if read.Failure? {
        return Failure(read.error);
      }
      SectorsInFileOrder(old(io.data), old(io.position), parse, read.value, e);
      e.Catalog(read.value, Scan(old(io.data), old(io.position), parse).value);
      return Success(e);
    }

    /** The catalog list becomes `sectors`, the sectors built from `rs`. */
    method Catalog(sectors: seq<Sector>, ghost rs: seq<ScannedRecord>)
      requires Valid() && cache == [] && subscribers == sectors && AllBuilt(sectors, rs, this)
      modifies this
      ensures Valid() && cache == sectors && subscribers == sectors && AllBuilt(sectors, rs, this)
    {
      cache := sectors;
    }

    /** `UpdateSector(s, offset, length)`: `s` moves to the end of the catalog and every other
        sector after `offset` shifts back by `length + offset - 4`. */
    method UpdateSectorMoved(s: Sector, offset: int, length: int)
      requires Valid() && s in subscribers
      modifies this, subscribers
      ensures Valid()
      ensures cache == MovedToEnd(old(cache), s) && subscribers == old(subscribers)
      ensures forall t :: t in subscribers ==>
        t.offset == if t == s then old(t.offset) else MovedOffset(old(t.offset), offset, length)
      ensures forall t :: t in subscribers ==>
        && t.length == old(t.length) && t.isNew == old(t.isNew) && t.connected == old(t.connected)
        && t.values == old(t.values) && t.ms == old(t.ms) && t.listeners == old(t.listeners)
    {
      cache := MovedToEnd(cache, s);
      forall t | t in subscribers && t != s && offset < t.offset {
        t.offset := t.offset - (length + offset - 4);
      }
    }

    /** `UpdateSector(s, o)`: `s` moves to the end of the catalog; every sector equal to `s`
        adopts its buffer, directory and connection count, and hands `o` to its queries. */
    method UpdateSectorChanged(s: Sector, o: SlotCache?)
      requires Valid() && s in subscribers && s.ms != null
      modifies this, subscribers, Listeners(s)
      ensures Valid()
      ensures cache == MovedToEnd(old(cache), s) && subscribers == old(subscribers)
      ensures s.ms == old(s.ms) && s.values == old(s.values) && s.connected == old(s.connected)
      ensures forall t :: t in subscribers && t.Equals(s) ==>
        t.ms == s.ms && t.values == s.values && t.connected == s.connected
      ensures forall t :: t in subscribers && !t.Equals(s) ==>
        t.ms == old(t.ms) && t.values == old(t.values) && t.connected == old(t.connected)
      ensures forall t :: t in subscribers ==>
        && t.length == old(t.length) && t.offset == old(t.offset) && t.isNew == old(t.isNew)
        && t.listeners == old(t.listeners)
      ensures forall l :: l in old(Listeners(s)) ==> l.cache == CastCache(o, l.elementType)
      ensures Listeners(s) == old(Listeners(s))
    {
      cache := MovedToEnd(cache, s);
      ShareState(s);
      NotifyListeners(s, o);
    }

    /** The first half of the `SectorChanged` handlers: every sector equal to `s` takes its
        buffer, directory and connection count. */
    method ShareState(s: Sector)
      requires Valid() && s in subscribers && s.ms != null
      modifies subscribers
      ensures Valid()
      ensures s.ms == old(s.ms) && s.values == old(s.values) && s.connected == old(s.connected)
      ensures forall t :: t in subscribers && t.Equals(s) ==>
        t.ms == s.ms && t.values == s.values && t.connected == s.connected
      ensures forall t :: t in subscribers && !t.Equals(s) ==>
        t.ms == old(t.ms) && t.values == old(t.values) && t.connected == old(t.connected)
      ensures forall t :: t in subscribers ==>
        && t.length == old(t.length) && t.offset == old(t.offset) && t.isNew == old(t.isNew)
        && t.listeners == old(t.listeners)
    {
      var buffer, directory, count := s.ms, s.values, s.connected;
      forall t | t in subscribers && t.Equals(s) {
        t.ms := buffer;
      }
      forall t | t in subscribers && t.Equals(s) {
        t.values := directory;
      }
      forall t | t in subscribers && t.Equals(s) {
        t.connected := count;
      }
    }

    /** The second half: each of their queries takes `o` as its cache when the element types
        agree, and null otherwise. */
    method NotifyListeners(s: Sector, o: SlotCache?)
      requires Valid()
      modifies Listeners(s)
      ensures Valid()
      ensures forall l :: l in old(Listeners(s)) ==> l.cache == CastCache(o, l.elementType)
    {
      forall l | l in Listeners(s) {
        l.cache := CastCache(o, l.elementType);
      }
    }

    /** `OfNameAndType`: the name is lower-cased and must not contain `;`; the first catalog
        sector with that name and type is returned, otherwise a new one is created at the end of
        the file and added to the catalog. */
    method OfNameAndType(name: string, kind: byte) returns (r: Result<Sector>)
      requires Valid()
      modifies this
      ensures Valid()
      ensures r.Success? <==> ';' !in Lower(name)
      ensures r.Failure? ==> r.error == FormatError && cache == old(cache) && subscribers == old(subscribers)
      ensures r.Success? && FindSector(old(cache), Lower(name), kind) >= 0 ==>
        && r.value == old(cache)[FindSector(old(cache), Lower(name), kind)]
        && cache == old(cache) && subscribers == old(subscribers)
      ensures r.Success? && FindSector(old(cache), Lower(name), kind) == -1 ==>
        && fresh(r.value) && fresh(r.value.values)
        && cache == old(cache) + [r.value] && subscribers == old(subscribers) + [r.value]
        && r.value.name == Lower(name) && r.value.kind == kind && r.value.enumerator == this
        && r.value.length == 0 && r.value.offset == |io.data| + 4 && r.value.isNew
        && r.value.connected == 0 && r.value.ms == null && r.value.listeners == []
        && r.value.values.keys == [] && r.value.values.values == []
      ensures r.Success? ==> r.value in cache && r.value.name == Lower(name) && r.value.kind == kind
    {
      var lowered := Lower(name);
      if ';' in lowered {
        return Failure(FormatError);
      }
      var i := FindSector(cache, lowered, kind);
      if i >= 0 {
        return Success(cache[i]);
      }
      var sector := new Sector.New(|io.data|, lowered, kind, this);
      cache := cache + [sector];
      return Success(sector);
    }

    /** `RequestMemoryStream(s)`: a fresh buffer holding the sector's payload, positioned at its
        end. */
    method RequestMemoryStream(s: Sector) returns (r: Result<ByteStream>)
      requires Valid() && s in subscribers
      modifies io
      ensures Valid()
      ensures io.data == old(io.data)
      ensures var want := RequestedPayload(io.data, s.offset, s.length, s.MetadataBytes());
        && (r.Success? <==> want.Success?)
        && (r.Failure? ==> r.error == want.error && io.position == old(io.position))
        && (r.Success? ==> fresh(r.value) && r.value.data == want.value && r.value.position == |want.value|)
        && (r.Success? ==> var p := s.offset + |s.MetadataBytes()|;
              io.position == p + ReadCount(|io.data|, p, |want.value|))
    {
      r := ReadPayload(s.offset, s.length, s.MetadataBytes());
    }

    /** The body of `RequestMemoryStream` for a sector at `offset` with total `length` and the
        given metadata. */
    method ReadPayload(offset: int, length: int, metadata: seq<byte>) returns (r: Result<ByteStream>)
      requires io.Valid()
      modifies io
      ensures io.Valid()
      ensures io.data == old(io.data)
      ensures var want := RequestedPayload(io.data, offset, length, metadata);
        && (r.Success? <==> want.Success?)
        && (r.Failure? ==> r.error == want.error && io.position == old(io.position))
        && (r.Success? ==> fresh(r.value) && r.value.data == want.value && r.value.position == |want.value|)
        && (r.Success? ==> var p := offset + |metadata|;
              io.position == p + ReadCount(|io.data|, p, |want.value|))
    {
      var size := if length == 0 then 0 else length - |metadata|;
      if size < 0 {
        return Failure(Overflow);
      }
      var sk := io.Seek(offset + |metadata|);
      if sk.Fail? {
        return Failure(IOError);
      }
      var got := io.Read(size);
      var bytes := got.value + Zeros(size - |got.value|);
      WindowOfRead(io.data, offset + |metadata|, size, got.value);
      var buffer := new ByteStream();
      buffer.Write(bytes);
      OverwriteAtEnd([], bytes);
      return Success(buffer);
    }

    /** `RemoveSector(s)`: the first catalog sector equal to `s` leaves the catalog. */
    method RemoveSector(s: Sector)
      requires Valid()
      modifies this
      ensures Valid() && subscribers == old(subscribers)
      ensures cache == RemoveFirstEqual(old(cache), s)
    {
      cache := RemoveFirstEqual(cache, s);
    }

    /** `Read()`, the scan of the constructor, from the cursor to the end of the file: one sector
        per record, built by the parse constructor (`parse` reads a body). The first error, a
        framing error or a body `parse` rejects, ends it. The length buffer is the previous body's
        array, so the loop relies on `parse` refusing bodies shorter than 4 bytes, as the parse
        constructor does. */
    method Read(parse: seq<byte> -> Result<RecordInfo>) returns (r: Result<seq<Sector>>)
      requires Valid() && subscribers == [] && cache == []
      requires forall b :: parse(b).Success? ==> |parse(b).value.keys| == |parse(b).value.lens|
      requires forall b :: |b| < 4 ==> parse(b).Failure?
      modifies this, io
      ensures Valid() && io.data == old(io.data) && cache == []
      ensures var want := Scan(old(io.data), old(io.position), parse);
        && (r.Success? <==> want.Success?)
        && (r.Failure? ==> r.error == want.error)
        && (r.Success? ==> subscribers == r.value && AllBuilt(r.value, want.value, this))
    {
      ghost var data, p0 := io.data, io.position;
      var sectors, step, frames, rs, at := Collect(parse);
      ScanningEnd(data, p0, at, frames, rs, parse, step);
      if step.Finished? {
        return Success(sectors);
      }
      return Failure(step.error);
    }

    /** The loop of `Read`: sectors are built until a turn finds no record. */
    method Collect(parse: seq<byte> -> Result<RecordInfo>)
      returns (sectors: seq<Sector>, step: Scanned, ghost frames: seq<Frame>, ghost rs: seq<ScannedRecord>, ghost at: nat)
      requires Valid() && subscribers == [] && cache == []
      requires forall b :: parse(b).Success? ==> |parse(b).value.keys| == |parse(b).value.lens|
      modifies this, io
      ensures Reading(old(io.data), old(io.position), at, frames, rs, sectors, step, parse) && !step.Found?
    {
      ghost var data, p0 := io.data, io.position;
      sectors, step, frames, rs, at := Begin(parse);
      while step.Found?
        invariant Reading(data, p0, at, frames, rs, sectors, step, parse)
        decreases |data| - at
      {
        sectors, step, frames, rs, at := Advance(parse, data, p0, at, frames, rs, sectors, step);
      }
    }

    /** The loop's state: the sectors built so far and the records they come from, the turn just
        taken from the cursor `at`, and the scan from `p0` up to it. */
    ghost predicate Reading(data: seq<byte>, p0: nat, at: nat, frames: seq<Frame>, rs: seq<ScannedRecord>,
                            sectors: seq<Sector>, step: Scanned, parse: seq<byte> -> Result<RecordInfo>)
      reads this, io, subscribers, Directories(), Buffers()
      reads Pending(sectors, step), set s | s in Pending(sectors, step) :: s.values
    {
      && Valid() && io.data == data && cache == []
      && Scanning(data, p0, at, frames, rs, parse) && Continues(data, at, step, parse)
      && subscribers == Pending(sectors, step) && AllBuilt(Pending(sectors, step), PendingRecords(rs, step), this)
      && (step.Found? ==> io.position == step.frame.offset + step.frame.length)
    }

    /** The first turn of the loop. */
    method Begin(parse: seq<byte> -> Result<RecordInfo>)
      returns (sectors: seq<Sector>, step: Scanned, ghost frames: seq<Frame>, ghost rs: seq<ScannedRecord>, ghost at: nat)
      requires Valid() && subscribers == [] && cache == []
      requires forall b :: parse(b).Success? ==> |parse(b).value.keys| == |parse(b).value.lens|
      modifies this, io
      ensures Reading(old(io.data), old(io.position), at, frames, rs, sectors, step, parse)
    {
      ScanningStart(io.data, io.position, parse);
      sectors, frames, rs, at := [], [], [], io.position;
      step := Turn(parse, io.data, at, at, frames, rs, sectors);
    }

    /** A turn of the loop after a sector was found: it joins the list, and the next turn runs
        from the end of its body. */
    method Advance(parse: seq<byte> -> Result<RecordInfo>, ghost data: seq<byte>, ghost p0: nat, ghost at: nat,
                   ghost frames: seq<Frame>, ghost rs: seq<ScannedRecord>, sectors: seq<Sector>, step: Scanned)
      returns (more: seq<Sector>, next: Scanned, ghost frames': seq<Frame>, ghost rs': seq<ScannedRecord>, ghost at': nat)
      requires Reading(data, p0, at, frames, rs, sectors, step, parse) && step.Found?
      requires forall b :: parse(b).Success? ==> |parse(b).value.keys| == |parse(b).value.lens|
      modifies this, io
      ensures Reading(data, p0, at', frames', rs', more, next, parse)
      ensures at < at' <= |data|
    {
      FoundJoins(data, p0, at, frames, rs, sectors, step, parse);
      more, frames', rs', at' := sectors + [step.sector], frames + [step.frame], PendingRecords(rs, step), io.position;
      next := Turn(parse, data, p0, at', frames', rs', more);
    }

    /** The state after a found sector is the start of the next turn. */
    lemma FoundJoins(data: seq<byte>, p0: nat, at: nat, frames: seq<Frame>, rs: seq<ScannedRecord>,
                     sectors: seq<Sector>, step: Scanned, parse: seq<byte> -> Result<RecordInfo>)
      requires Reading(data, p0, at, frames, rs, sectors, step, parse) && step.Found?
      ensures Valid() && io.data == data && cache == [] && at < io.position <= |data|
      ensures Scanning(data, p0, io.position, frames + [step.frame], PendingRecords(rs, step), parse)
      ensures subscribers == sectors + [step.sector] && AllBuilt(sectors + [step.sector], PendingRecords(rs, step), this)
    {
      ScanningStep(data, p0, at, frames, rs, parse, step);
    }

    /** A turn of the loop from `at`, with `sectors` built so far from `rs`. */
    method Turn(parse: seq<byte> -> Result<RecordInfo>, ghost data: seq<byte>, ghost p0: nat, ghost at: nat,
                ghost frames: seq<Frame>, ghost rs: seq<ScannedRecord>, sectors: seq<Sector>)
      returns (next: Scanned)
      requires Valid() && io.data == data && io.position == at && cache == []
      requires Scanning(data, p0, at, frames, rs, parse)
      requires subscribers == sectors && AllBuilt(sectors, rs, this)
      requires forall b :: parse(b).Success? ==> |parse(b).value.keys| == |parse(b).value.lens|
      modifies this, io
      ensures Reading(data, p0, at, frames, rs, sectors, next, parse)
    {
      next := ReadRecord(parse);
      AllBuiltPending(sectors, rs, next, this);
    }

    /** One turn of the loop of `Read`: the next frame, then the parse constructor on its body. */
    method ReadRecord(parse: seq<byte> -> Result<RecordInfo>) returns (r: Scanned)
      requires Valid()
      requires forall b :: parse(b).Success? ==> |parse(b).value.keys| == |parse(b).value.lens|
      modifies this, io
      ensures Valid() && io.data == old(io.data) && cache == old(cache)
      ensures Continues(io.data, old(io.position), r, parse)
      ensures !r.Found? ==> subscribers == old(subscribers)
      ensures r.Found? ==>
        && io.position == r.frame.offset + r.frame.length
        && fresh(r.sector) && subscribers == old(subscribers) + [r.sector]
        && BuiltFrom(r.sector, ScannedRecord(r.info, r.frame.length, r.frame.offset), this)
    {
      var next, body := ReadFrame();
      if next.Failure? {
        return Broken(next.error);
      }
      if next.value.None? {
        return Finished;
      }
      var frame := next.value.value;
      var parsed := parse(body);
      if parsed.Failure? {
        return Unparsed(frame, parsed.error);
      }
      var sector := new Sector.Parsed(io.position, frame.length, parsed.value, this);
      return Found(frame, parsed.value, sector);
    }

    /** The framing half of a turn: the 4-byte length at the cursor, then that many body bytes. No
        header left ends the loop; a negative length cannot be allocated; a zero length or a short
        body is an unexpected end of stream. */
    method ReadFrame() returns (r: Result<Option<Frame>>, body: seq<byte>)
      requires io.Valid()
      modifies io
      ensures io.Valid() && io.data == old(io.data)
      ensures r == Success(None) ==> Frames(io.data, old(io.position)) == ([], None)
      ensures r.Failure? ==> Frames(io.data, old(io.position)) == ([], Some(r.error))
      ensures r.Success? && r.value.Some? ==>
        var f := r.value.value;
        && FirstFrame(io.data, old(io.position), f)
        && body == io.data[f.offset..f.offset + f.length]
        && io.position == f.offset + f.length
    {
      var at := io.position;
      var header := io.Read(4);
      if |header.value| != 4 {
        return Success(None), [];
      }
      assert header.value[0..4] == io.data[at..at + 4];
      var length := ReadInt32(header.value, 0);
      if length < 0 {
        return Failure(Overflow), [];
      }
      if length == 0 {
        return Failure(EndOfStream), [];
      }
      var got := io.Read(length);
      if |got.value| != length {
        return Failure(EndOfStream), [];
      }
      return Success(Some(Frame(at + 4, length))), got.value;
    }

    /** `TryReadBytes(offset, length, out bytes)`: true iff all `length` bytes were read. Seeking
        a negative offset and allocating a negative length throw. */
    method TryReadBytes(offset: int, length: int) returns (r: Result<(bool, seq<byte>)>)
      requires Valid()
      modifies io
      ensures Valid()
      ensures io.data == old(io.data)
      ensures r.Success? <==> offset >= 0 && length >= 0
      ensures r.Failure? ==> r.error == (if offset < 0 then IOError else Overflow)
      ensures r.Failure? ==> io.position == if offset < 0 then old(io.position) else offset
      ensures r.Success? ==> r.value.1 == Window(io.data, offset, length)
      ensures r.Success? ==> (r.value.0 <==> length == 0 || offset + length <= |io.data|)
      ensures r.Success? ==> io.position == offset + ReadCount(|io.data|, offset, length)
    {
      var sk := io.Seek(offset);
      if sk.Fail? {
        return Failure(IOError);
      }
      if length < 0 {
        return Failure(Overflow);
      }
      var got := io.Read(length);
      var buffer := got.value + Zeros(length - |got.value|);
      WindowOfRead(io.data, offset, length, got.value);
      return Success((|got.value| == length, buffer));
    }
  }

  /** Sectors built from a scan lie in file order. */
  lemma SectorsInFileOrder(data: seq<byte>, pos: nat, parse: seq<byte> -> Result<RecordInfo>,
                           sectors: seq<Sector>, e: SectorEnumerator)
    requires Scan(data, pos, parse).Success? && AllBuilt(sectors, Scan(data, pos, parse).value, e)
    ensures forall i, j :: 0 <= i < j < |sectors| ==> sectors[i].offset < sectors[j].offset
  {
    ScanInFileOrder(data, pos, parse);
  }

  /** The read loop's progress: the records `rs` parsed from `frames`, the framing from `p0`
      up to the cursor `at`. */
  ghost predicate Scanning(data: seq<byte>, p0: nat, at: nat, frames: seq<Frame>, rs: seq<ScannedRecord>,
                           parse: seq<byte> -> Result<RecordInfo>)
  {
    && InFile(data, frames) && ParseFrames(data, frames, parse) == Success(rs)
    && Frames(data, p0) == (frames + Frames(data, at).0, Frames(data, at).1)
  }

  lemma ScanningStart(data: seq<byte>, p0: nat, parse: seq<byte> -> Result<RecordInfo>)
    ensures Scanning(data, p0, p0, [], [], parse)
  {
    assert [] + Frames(data, p0).0 == Frames(data, p0).0;
  }

  /** A parsed first frame at `at` extends the scanned prefix by one record. */
  lemma ScanningStep(data: seq<byte>, p0: nat, at: nat, frames: seq<Frame>, rs: seq<ScannedRecord>,
                     parse: seq<byte> -> Result<RecordInfo>, step: Scanned)
    requires Scanning(data, p0, at, frames, rs, parse) && Continues(data, at, step, parse) && step.Found?
    ensures var f := step.frame;
      Scanning(data, p0, f.offset + f.length, frames + [f], rs + [ScannedRecord(step.info, f.length, f.offset)], parse)
  {
    ParsedPrefixGrows(data, frames, rs, step.frame, step.info, parse);
    FramedPrefixGrows(data, p0, at, frames, step.frame);
  }

  lemma ParsedPrefixGrows(data: seq<byte>, frames: seq<Frame>, rs: seq<ScannedRecord>, f: Frame, info: RecordInfo,
                          parse: seq<byte> -> Result<RecordInfo>)
    requires InFile(data, frames) && ParseFrames(data, frames, parse) == Success(rs)
    requires 0 <= f.offset && 0 < f.length && f.offset + f.length <= |data|
    requires parse(data[f.offset..f.offset + f.length]) == Success(info)
    ensures InFile(data, frames + [f])
    ensures ParseFrames(data, frames + [f], parse) == Success(rs + [ScannedRecord(info, f.length, f.offset)])
  {
    ParseFrameOfParsed(data, f, parse, info);
    assert InFile(data, frames + [f]);
    assert (frames + [f])[..|frames|] == frames;
    ParseFramesSnoc(data, frames + [f], parse, rs, ScannedRecord(info, f.length, f.offset));
  }

  lemma FramedPrefixGrows(data: seq<byte>, p0: nat, at: nat, frames: seq<Frame>, f: Frame)
    requires Frames(data, p0) == (frames + Frames(data, at).0, Frames(data, at).1) && FirstFrame(data, at, f)
    ensures Frames(data, p0) == (frames + [f] + Frames(data, f.offset + f.length).0, Frames(data, f.offset + f.length).1)
  {
    var next := f.offset + f.length;
    assert frames + ([f] + Frames(data, next).0) == (frames + [f]) + Frames(data, next).0;
  }

  /** When the loop stops, the scan's result is the records so far, or the error that stopped it. */
  lemma ScanningEnd(data: seq<byte>, p0: nat, at: nat, frames: seq<Frame>, rs: seq<ScannedRecord>,
                    parse: seq<byte> -> Result<RecordInfo>, step: Scanned)
    requires Scanning(data, p0, at, frames, rs, parse) && Continues(data, at, step, parse) && !step.Found?
    ensures Scan(data, p0, parse) == if step.Finished? then Success(rs) else Failure(step.error)
  {
    if step.Unparsed? {
      assert (frames + Frames(data, at).0)[..|frames| + 1] == frames + [step.frame];
      ScanOfUnparsed(data, p0, parse, frames, step.frame, step.error);
    } else {
      assert frames + [] == frames;
      ScanOfFraming(data, p0, parse, frames, Frames(data, at).1, rs);
    }
  }

  // ---------------------------------------------------------------- properties of Update

  /** A new sector with an empty payload leaves the file alone. */
  lemma PersistNewEmpty(f: seq<byte>, pos: int, length: int, offset: int, metadata: seq<byte>)
    ensures Persist(f, pos, length, offset, true, metadata, []) == Persisted(Pass, f, |f|, length, offset, true, false)
  {
  }

  /** A new sector is appended at the end of the file (cut by a stale `Length` left from a
      deletion); with no stale length, the record is added at the end, its body offset is just
      after the 4-byte total, and the sector is no longer new. */
  lemma PersistNewAppends(f: seq<byte>, pos: int, length: int, offset: int, metadata: seq<byte>, payload: seq<byte>)
    requires |payload| > 0
    ensures var p := Persist(f, pos, length, offset, true, metadata, payload);
      && !p.moved
      && (p.outcome.Pass? ==> p.file == AppendedFile(f, Record(metadata, payload), length))
      && (length <= |metadata| + |payload| ==>
            && p.outcome.Pass? && p.file == f + Record(metadata, payload)
            && p.length == |metadata| + |payload| && p.offset == |f| + 4 && !p.isNew)
  {
    OverwriteAtEnd(f, Record(metadata, payload));
  }

  /** A persisted sector whose size changed is cut out by the block-copy loop, the new record is
      written after the slid tail, and the file is cut by the shrinkage; its offset points at the
      end of the file. */
  lemma PersistRelocates(f: seq<byte>, pos: int, length: int, offset: int, metadata: seq<byte>, payload: seq<byte>)
    requires length > 0 && |metadata| + |payload| != length && |payload| > 0
    requires 4 <= offset && offset + length <= |f|
    ensures var p := Persist(f, pos, length, offset, false, metadata, payload);
      && p.moved && p.outcome.Pass?
      && p.file == RewrittenFile(f, offset - 4, offset + length, Record(metadata, payload), length)
      && p.length == |metadata| + |payload| && p.offset == |p.file| - p.length && !p.isNew
  {
    var start, end := offset - 4, offset + length;
    var g, at := TailCopied(f, start, end), start + |f| - end;
    assert Placement(f, pos, length, offset, false, |metadata| + |payload|) == Step(Pass, g, at);
    WrittenAfterTail(f, start, end, length, offset, metadata, payload);
    var (st, book) := Written(g, at, length, offset, false, metadata, payload);
    assert Stored(g, at, length, offset, false, metadata, payload) == (st, book);
    assert Persist(f, pos, length, offset, false, metadata, payload)
        == Persisted(st.outcome, st.file, st.position, book.length, book.offset, book.isNew, true);
  }

  /** The write phase after the slide: the cursor is `length + 4` bytes before the end, so the
      file is never cut below zero. */
  lemma WrittenAfterTail(f: seq<byte>, start: int, end: int, length: int, offset: int,
                         metadata: seq<byte>, payload: seq<byte>)
    requires 0 <= start < end <= |f| && end - start == length + 4
    ensures var total := |metadata| + |payload|;
      var (st, book) := Written(TailCopied(f, start, end), start + |f| - end, length, offset, false, metadata, payload);
      && st.outcome.Pass?
      && st.file == RewrittenFile(f, start, end, Record(metadata, payload), length)
      && book == Bookkeeping(total, |st.file| - total, false)
  {
  }

  /** With a tail of at most one block, the size-changing rewrite is a splice: the old record is
      cut out, the rest closes up, and the new record goes at the end. */
  lemma PersistRelocatesOneBlock(f: seq<byte>, pos: int, length: int, offset: int, metadata: seq<byte>, payload: seq<byte>)
    requires length > 0 && |metadata| + |payload| != length && |payload| > 0
    requires 4 <= offset && offset + length <= |f| && |f| - (offset + length) <= BLOCK_SIZE
    ensures Persist(f, pos, length, offset, false, metadata, payload).file
         == f[..offset - 4] + f[offset + length..] + Record(metadata, payload)
  {
    PersistRelocates(f, pos, length, offset, metadata, payload);
    RewriteIsSplice(f, offset - 4, offset + length, Record(metadata, payload));
  }

  /** Deleting a persisted sector, with a tail of at most one block after it, cuts its
      `Length + 4` bytes out and marks it new; its `Length` and `Offset` stay as they were. */
  lemma PersistDeletes(f: seq<byte>, pos: int, length: int, offset: int, metadata: seq<byte>)
    requires length > 0 && |metadata| != length
    requires 4 <= offset && offset + length <= |f| && |f| - (offset + length) <= BLOCK_SIZE
    ensures var p := Persist(f, pos, length, offset, false, metadata, []);
      && p.moved && p.outcome.Pass? && p.isNew
      && p.file == f[..offset - 4] + f[offset + length..]
      && p.length == length && p.offset == offset
  {
    DeleteIsSplice(f, offset - 4, offset + length);
  }

  /** A persisted sector of unchanged size is rewritten over its own bytes and nothing else in
      the file changes; its offset is then set to `file length - Length`, which is its own offset
      only when it is the last record. */
  lemma PersistInPlace(f: seq<byte>, pos: int, length: int, offset: int, metadata: seq<byte>, payload: seq<byte>)
    requires |payload| > 0 && |metadata| + |payload| == length
    requires 4 <= offset && offset + length <= |f|
    ensures var p := Persist(f, pos, length, offset, false, metadata, payload);
      && !p.moved && p.outcome.Pass? && !p.isNew && p.length == length
      && p.file == f[..offset - 4] + Record(metadata, payload) + f[offset + length..]
      && (p.offset == offset <==> offset + length == |f|)
  {
    InPlaceRewrite(f, offset - 4, Record(metadata, payload));
  }

  /** After a new sector is appended, loading its buffer reads back the payload it wrote. */
  lemma PersistThenLoad(f: seq<byte>, pos: int, offset: int, metadata: seq<byte>, payload: seq<byte>)
    requires |payload| > 0
    ensures var p := Persist(f, pos, 0, offset, true, metadata, payload);
      RequestedPayload(p.file, p.offset, p.length, metadata) == Success(payload)
  {
    PersistNewAppends(f, pos, 0, offset, metadata, payload);
    PayloadOfRecord(f, metadata, payload, []);
    assert f + Record(metadata, payload) + [] == f + Record(metadata, payload);
  }

  /** A new sector written into an empty file makes the file exactly its record. */
  lemma PersistIntoEmpty(pos: int, offset: int, metadata: seq<byte>, payload: seq<byte>)
    requires |payload| > 0
    ensures var p := Persist([], pos, 0, offset, true, metadata, payload);
      p.file == Record(metadata, payload) && p.length == |metadata| + |payload| && p.offset == 4
  {
    PersistNewAppends([], pos, 0, offset, metadata, payload);
    assert [] + Record(metadata, payload) == Record(metadata, payload);
  }

  /** A sector written into an empty file is the one record a scan finds there, at the offset and
      with the length the sector recorded, whenever the record parser reads its body back
      (`Records.RecordRoundTrip` shows `ParseRecord` does for every well-formed metadata). */
  lemma PersistThenScan(pos: int, offset: int, metadata: seq<byte>, payload: seq<byte>,
                        parse: seq<byte> -> Result<RecordInfo>, info: RecordInfo)
    requires |payload| > 0 && |metadata| + |payload| < 0x8000_0000
    requires parse(metadata + payload) == Success(info)
    ensures var p := Persist([], pos, 0, offset, true, metadata, payload);
      Scan(p.file, 0, parse) == Success([ScannedRecord(info, p.length, p.offset)])
  {
    PersistIntoEmpty(pos, offset, metadata, payload);
    assert Record(metadata, payload) == LE(|metadata + payload|, 4) + (metadata + payload);
    ScanOfSingleRecord(metadata + payload, parse, info);
  }

  // ---------------------------------------------------------------- properties of the catalog

  /** Two sectors are equal exactly when their names and types match: an equivalence that ignores
      offsets, lengths and contents. */
  lemma EqualsIsEquivalence(a: Sector, b: Sector, c: Sector)
    ensures a.Equals(a)
    ensures a.Equals(b) <==> b.Equals(a)
    ensures a.Equals(b) && b.Equals(c) ==> a.Equals(c)
  {
  }

  /** Once a sector has been created for a name and type, resolving them again finds it. */
  lemma FindAfterCreate(xs: seq<Sector>, s: Sector)
    requires FindSector(xs, s.name, s.kind) == -1
    ensures FindSector(xs + [s], s.name, s.kind) == |xs|
  {
    var ys := xs + [s];
    assert ys[|xs|] == s;
    assert forall j :: 0 <= j < |xs| ==> ys[j] == xs[j];
  }

  /** The reorder moves `s` to the end; when `s` is the only member equal to itself, no member is
      added or lost. */
  lemma MovedToEndKeepsMembers(xs: seq<Sector>, s: Sector)
    requires s in xs
    requires forall t :: t in xs && t.Equals(s) ==> t == s
    ensures |MovedToEnd(xs, s)| == |xs|
    ensures MovedToEnd(xs, s)[|xs| - 1] == s
    ensures multiset(MovedToEnd(xs, s)) == multiset(xs)
  {
    var i := FindSector(xs, s.name, s.kind);
    assert xs[i] in xs && xs[i].Equals(s);
    assert xs[i] == s;
    assert xs == xs[..i] + [s] + xs[i + 1..];
    calc {
      multiset(xs);
      multiset(xs[..i]) + multiset{s} + multiset(xs[i + 1..]);
      multiset(xs[..i] + xs[i + 1..]) + multiset{s};
    }
  }

  /** When the catalog holds another sector with the same name and type before `s`, the reorder
      drops that one and `s` appears twice. */
  lemma MovedToEndDropsTwin(xs: seq<Sector>, s: Sector, twin: Sector)
    requires twin != s && twin.Equals(s)
    requires xs == [twin, s]
    ensures MovedToEnd(xs, s) == [s, s]
  {
  }
}
