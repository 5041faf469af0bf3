/** The on-disk layout of a sector and the arithmetic of rewriting it. The file is a sequence of
    records `[u32 total][type byte][u32 metaLen][UTF-8 "name;k:v;..."][payload]`, where `total`
    counts every byte after itself. */
module Records {
  import opened Wrappers
  import opened Bytes
  import opened Text
  import Utf8
  import opened SlotDirectory
  import opened Streams

  /** The chunk size of the file's block-copy loop. */
  const BLOCK_SIZE: nat := 131072

  /** The `SectorType` flags. */
  const GENERIC: byte := 1
  const DYNAMIC: byte := 2
  const DICTIONARY: byte := 4

  // ---------------------------------------------------------------- metadata and records

  /** `Name + ';' + String.Join(";", k:v ...)`. */
  function MetadataText(name: string, keys: seq<int>, lens: seq<int>): string
    requires |keys| == |lens|
  {
    name + ";" + DirectoryText(keys, lens)
  }

  /** The `Metadata` getter: the type byte, the little-endian byte count of the text, the text. */
  function Metadata(kind: byte, name: string, keys: seq<int>, lens: seq<int>): (m: seq<byte>)
    requires |keys| == |lens|
    ensures |m| == 5 + |Utf8.Encode(MetadataText(name, keys, lens))|
    ensures m[0] == kind
  {
    var text := Utf8.Encode(MetadataText(name, keys, lens));
    [kind] + LE(|text|, 4) + text
  }

  /** A whole record as `Update` writes it: the 4-byte total, the metadata, the payload. */
  function Record(metadata: seq<byte>, payload: seq<byte>): (rec: seq<byte>)
    ensures |rec| == 4 + |metadata| + |payload|
  {
    LE(|metadata| + |payload|, 4) + metadata + payload
  }

  /** `BitConverter.ToInt32(bytes, start)`. */
  function ReadInt32(bs: seq<byte>, start: nat): int
    requires start + 4 <= |bs|
  {
    Signed(FromLE(bs[start..start + 4]), 4)
  }

  /** The fields the parse constructor reads from a record body. */
  datatype RecordInfo = RecordInfo(kind: byte, name: string, keys: seq<int>, lens: seq<int>)

  /** The parse constructor's reading of a record body (everything after the 4-byte total). */
  function ParseRecord(body: seq<byte>): (r: Result<RecordInfo>)
    ensures r.Success? ==> |r.value.keys| == |r.value.lens| && ';' !in r.value.name
  {
    if |body| == 0 then Failure(IndexOutOfRange)
    else if |body| < 5 then Failure(ArgumentError)
    else
      var mlen := ReadInt32(body, 1);
      if mlen < 0 || 5 + mlen > |body| then Failure(ArgumentError)
      else ParseMetadataText(body[0], Utf8.Decode(body[5..5 + mlen]))
  }

  /** The metadata text after decoding: the name up to the first `;`, then the directory. */
  function ParseMetadataText(kind: byte, text: string): (r: Result<RecordInfo>)
    ensures r.Success? ==> |r.value.keys| == |r.value.lens| && ';' !in r.value.name
  {
    var cut := IndexOfChar(text, ';');
    if cut == -1 then Failure(ArgumentError)
    else
      match ParseDirectory(text[cut + 1..])
      case Failure(e) => Failure(e)
      case Success(d) => Success(RecordInfo(kind, text[..cut], d.0, d.1))
  }

  /** What the catalog's read loop relies on: a parsed body gives one length per key, and a body
      too short for the type byte and the text length is refused. */
  lemma ParseRecordShape()
    ensures forall b :: ParseRecord(b).Success? ==> |ParseRecord(b).value.keys| == |ParseRecord(b).value.lens|
    ensures forall b :: |b| < 4 ==> ParseRecord(b).Failure?
  {
  }

  lemma Pow256Four()
    ensures Pow256(4) == 0x1_0000_0000
  {
    assert Pow256(2) == 0x1_0000;
  }

  lemma ReadInt32OfLE(n: nat, rest: seq<byte>)
    requires n < 0x8000_0000
    ensures ReadInt32(LE(n, 4) + rest, 0) == n
  {
    Pow256Four();
    assert (LE(n, 4) + rest)[0..4] == LE(n, 4);
    FromLEOfLE(n, 4);
  }

  lemma FirstSemicolon(name: string, rest: string)
    requires ';' !in name
    ensures IndexOfChar(name + ";" + rest, ';') == |name|
    ensures (name + ";" + rest)[..|name|] == name
    ensures (name + ";" + rest)[|name| + 1..] == rest
  {
    var t := name + ";" + rest;
    assert t[|name|] == ';';
    assert t[..|name|] == name;
  }

  /** The layout of a body that starts with metadata: type byte, text length, text. */
  /** The header `[kind][u32 n][n bytes]` reads back its kind, count and text. */
  lemma HeaderLayout(kind: byte, enc: seq<byte>, payload: seq<byte>)
    requires |enc| < 0x8000_0000
    ensures var body := [kind] + LE(|enc|, 4) + enc + payload;
      && |body| >= 5 + |enc|
      && body[0] == kind
      && ReadInt32(body, 1) == |enc|
      && body[5..5 + |enc|] == enc
  {
    var body := [kind] + LE(|enc|, 4) + enc + payload;
    assert body[1..] == LE(|enc|, 4) + (enc + payload);
    ReadInt32OfLE(|enc|, enc + payload);
    assert body[1..5] == body[1..][0..4];
  }

  lemma MetadataLayout(kind: byte, name: string, keys: seq<int>, lens: seq<int>, payload: seq<byte>)
    requires |keys| == |lens|
    requires |Utf8.Encode(MetadataText(name, keys, lens))| < 0x8000_0000
    ensures var enc := Utf8.Encode(MetadataText(name, keys, lens));
      var body := Metadata(kind, name, keys, lens) + payload;
      && |body| >= 5 + |enc|
      && body[0] == kind
      && ReadInt32(body, 1) == |enc|
      && body[5..5 + |enc|] == enc
  {
    var enc := Utf8.Encode(MetadataText(name, keys, lens));
    assert Metadata(kind, name, keys, lens) == [kind] + LE(|enc|, 4) + enc;
    HeaderLayout(kind, enc, payload);
  }


  /** A body with a well-formed header reads its kind and its decoded text. */
  lemma ParseRecordSteps(body: seq<byte>, text: string)
    requires |body| >= 5
    requires 0 <= ReadInt32(body, 1) && 5 + ReadInt32(body, 1) <= |body|
    requires Utf8.Decode(body[5..5 + ReadInt32(body, 1)]) == text
    ensures ParseRecord(body) == ParseMetadataText(body[0], text)
  {
  }

  /** The metadata of a sector whose name has no ';' and whose directory is non-empty reads back as
      the same type, name and directory, whatever payload follows. */
  lemma RecordRoundTrip(kind: byte, name: string, keys: seq<int>, lens: seq<int>, payload: seq<byte>)
    requires ';' !in name
    requires |keys| == |lens| >= 1
    requires forall i :: 0 <= i < |keys| ==> IsInt32(keys[i]) && IsInt32(lens[i])
    requires |Utf8.Encode(MetadataText(name, keys, lens))| < 0x8000_0000
    ensures ParseRecord(Metadata(kind, name, keys, lens) + payload) == Success(RecordInfo(kind, name, keys, lens))
  {
    var text := MetadataText(name, keys, lens);
    MetadataLayout(kind, name, keys, lens, payload);
    Utf8.DecodeEncode(text);
    FirstSemicolon(name, DirectoryText(keys, lens));
    DirectoryRoundTrip(keys, lens);
    ParseRecordSteps(Metadata(kind, name, keys, lens) + payload, text);
  }

  /** The empty directory cannot be read back: a record whose text is `name;` fails to parse. */
  lemma EmptyDirectoryRecordFails(kind: byte, name: string, payload: seq<byte>)
    requires ';' !in name
    requires |Utf8.Encode(MetadataText(name, [], []))| < 0x8000_0000
    ensures ParseRecord(Metadata(kind, name, [], []) + payload) == Failure(FormatError)
  {
    var text := MetadataText(name, [], []);
    MetadataLayout(kind, name, [], [], payload);
    Utf8.DecodeEncode(text);
    FirstSemicolon(name, DirectoryText([], []));
    EmptyDirectoryDoesNotParse();
    ParseRecordSteps(Metadata(kind, name, [], []) + payload, text);
  }

  // ---------------------------------------------------------------- the scan

  /** A length-prefixed record found by the scan: where its body starts and how long it is. */
  datatype Frame = Frame(offset: int, length: int)

  /** The framing part of the scan from position `pos`: `[u32 len][len bytes]` records until fewer
      than 4 bytes remain, and the error that stopped it, if any. A negative length cannot be
      allocated; a zero length or a short body is an unexpected end of stream. */
  function Frames(data: seq<byte>, pos: nat): (r: (seq<Frame>, Option<Error>))
    decreases |data| - pos
  {
    if pos + 4 > |data| then ([], None)
    else
      var length := ReadInt32(data, pos);
      if length < 0 then ([], Some(Overflow))
      else if length == 0 || pos + 4 + length > |data| then ([], Some(EndOfStream))
      else
        var rest := Frames(data, pos + 4 + length);
        ([Frame(pos + 4, length)] + rest.0, rest.1)
  }

  predicate InFile(data: seq<byte>, frames: seq<Frame>)
  {
    forall i :: 0 <= i < |frames| ==> 0 <= frames[i].offset && 0 < frames[i].length && frames[i].offset + frames[i].length <= |data|
  }

  /** The frames lie inside the file after `pos`, in file order, each body followed directly by the
      next length prefix. */
  lemma {:induction false} FramesInFileOrder(data: seq<byte>, pos: nat)
    ensures var fs := Frames(data, pos).0;
      && InFile(data, fs)
      && (forall i :: 0 <= i < |fs| ==> pos + 4 <= fs[i].offset)
      && (forall i :: 0 <= i < |fs| - 1 ==> fs[i + 1].offset == fs[i].offset + fs[i].length + 4)
      && (forall i, j :: 0 <= i < j < |fs| ==> fs[i].offset < fs[j].offset)
    decreases |data| - pos
  {
    if pos + 4 <= |data| {
      var length := ReadInt32(data, pos);
      if length > 0 && pos + 4 + length <= |data| {
        FramesInFileOrder(data, pos + 4 + length);
      }
    }
  }

  /** One record of the catalog as the parse constructor builds it. */
  datatype ScannedRecord = ScannedRecord(info: RecordInfo, length: int, offset: int)

  /** `new Sector(io.Position, length, bytes, this)` for one frame, with `parse` reading the body. */
  function ParseFrame(data: seq<byte>, f: Frame, parse: seq<byte> -> Result<RecordInfo>): (r: Result<ScannedRecord>)
    requires 0 <= f.offset && 0 < f.length && f.offset + f.length <= |data|
    ensures r.Success? ==> r.value.offset == f.offset && r.value.length == f.length
    ensures r.Success? <==> parse(data[f.offset..f.offset + f.length]).Success?
  {
    match parse(data[f.offset..f.offset + f.length])
    case Failure(e) => Failure(e)
    case Success(info) => Success(ScannedRecord(info, f.length, f.offset))
  }

  /** The parse constructor applied to each frame in order, stopping at the first that throws. */
  function ParseFrames(data: seq<byte>, frames: seq<Frame>, parse: seq<byte> -> Result<RecordInfo>): (r: Result<seq<ScannedRecord>>)
    requires InFile(data, frames)
    ensures r.Success? ==> |r.value| == |frames|
  {
    if |frames| == 0 then Success([])
    else
      match ParseFrames(data, frames[..|frames| - 1], parse)
      case Failure(e) => Failure(e)
      case Success(rs) =>
        match ParseFrame(data, frames[|frames| - 1], parse)
        case Failure(e) => Failure(e)
        case Success(r) => Success(rs + [r])
  }

  /** Each scanned record keeps the place of its frame. */
  lemma {:induction false} ParseFramesKeepPlaces(data: seq<byte>, frames: seq<Frame>, parse: seq<byte> -> Result<RecordInfo>)
    requires InFile(data, frames)
    requires ParseFrames(data, frames, parse).Success?
    ensures var rs := ParseFrames(data, frames, parse).value;
      forall i :: 0 <= i < |frames| ==> rs[i].offset == frames[i].offset && rs[i].length == frames[i].length
  {
    if |frames| > 0 {
      var init := frames[..|frames| - 1];
      assert InFile(data, init);
      ParseFramesKeepPlaces(data, init, parse);
    }
  }

  /** A scan with `parse` reading each body: every frame read before the stopping error is parsed
      first, so a parse error wins over the error that ends the framing. */
  function Scan(data: seq<byte>, pos: nat, parse: seq<byte> -> Result<RecordInfo>): Result<seq<ScannedRecord>>
  {
    var (frames, stop) := Frames(data, pos);
    FramesInFileOrder(data, pos);
    match ParseFrames(data, frames, parse)
    case Failure(e) => Failure(e)
    case Success(rs) => if stop.Some? then Failure(stop.value) else Success(rs)
  }

  /** The catalog scan of `SectorEnumerator`'s constructor. */
  function ScanRecords(data: seq<byte>, pos: nat): Result<seq<ScannedRecord>>
  {
    Scan(data, pos, ParseRecord)
  }

  predicate SortedByOffset(rs: seq<ScannedRecord>)
  {
    forall i, j :: 0 <= i < j < |rs| ==> rs[i].offset < rs[j].offset
  }

  /** The scan finds records in file order, whatever reads the bodies: every body lies inside the
      file after `pos` and the offsets strictly increase, so ordering the result by offset leaves
      it as it is. */
  lemma ScanInFileOrder(data: seq<byte>, pos: nat, parse: seq<byte> -> Result<RecordInfo>)
    requires Scan(data, pos, parse).Success?
    ensures var rs := Scan(data, pos, parse).value;
      && SortedByOffset(rs)
      && (forall i :: 0 <= i < |rs| ==> pos + 4 <= rs[i].offset && rs[i].length > 0 && rs[i].offset + rs[i].length <= |data|)
  {
    FramesInFileOrder(data, pos);
    ParseFramesKeepPlaces(data, Frames(data, pos).0, parse);
  }

  /** A frame whose body parses gives the record at the frame's place. */
  lemma ParseFrameOfParsed(data: seq<byte>, f: Frame, parse: seq<byte> -> Result<RecordInfo>, info: RecordInfo)
    requires 0 <= f.offset && 0 < f.length && f.offset + f.length <= |data|
    requires parse(data[f.offset..f.offset + f.length]) == Success(info)
    ensures ParseFrame(data, f, parse) == Success(ScannedRecord(info, f.length, f.offset))
  {
  }

  /** A single frame whose body parses scans to one record. */
  lemma ParseSingleFrame(data: seq<byte>, f: Frame, parse: seq<byte> -> Result<RecordInfo>, info: RecordInfo)
    requires 0 <= f.offset && 0 < f.length && f.offset + f.length <= |data|
    requires parse(data[f.offset..f.offset + f.length]) == Success(info)
    ensures ParseFrames(data, [f], parse) == Success([ScannedRecord(info, f.length, f.offset)])
  {
    var r := ScannedRecord(info, f.length, f.offset);
    ParseFrameOfParsed(data, f, parse, info);
    assert [f][..0] == [];
    ParseFramesSnoc(data, [f], parse, [], r);
    assert [] + [r] == [r];
  }

  /** One more frame whose body parses extends the scan by one record. */
  lemma ParseFramesSnoc(data: seq<byte>, frames: seq<Frame>, parse: seq<byte> -> Result<RecordInfo>,
                        rs: seq<ScannedRecord>, r: ScannedRecord)
    requires InFile(data, frames) && |frames| > 0
    requires ParseFrames(data, frames[..|frames| - 1], parse) == Success(rs)
    requires ParseFrame(data, frames[|frames| - 1], parse) == Success(r)
    ensures ParseFrames(data, frames, parse) == Success(rs + [r])
  {
  }

  /** A framing whose frames all parse ends the scan with their records, or with the error that
      stopped it. */
  lemma ScanOfFraming(data: seq<byte>, pos: nat, parse: seq<byte> -> Result<RecordInfo>,
                      frames: seq<Frame>, stop: Option<Error>, rs: seq<ScannedRecord>)
    requires Frames(data, pos) == (frames, stop)
    requires InFile(data, frames) && ParseFrames(data, frames, parse) == Success(rs)
    ensures Scan(data, pos, parse) == if stop.Some? then Failure(stop.value) else Success(rs)
  {
  }

  /** Once a prefix of the frames fails to parse, so does every extension of it. */
  lemma {:induction false} ParseFramesFailurePersists(data: seq<byte>, xs: seq<Frame>, ys: seq<Frame>,
                                                      parse: seq<byte> -> Result<RecordInfo>, e: Error)
    requires InFile(data, xs) && InFile(data, xs + ys)
    requires ParseFrames(data, xs, parse) == Failure(e)
    ensures ParseFrames(data, xs + ys, parse) == Failure(e)
    decreases |ys|
  {
    if |ys| == 0 {
      assert xs + ys == xs;
    } else {
      var init := ys[..|ys| - 1];
      assert (xs + ys)[..|xs + ys| - 1] == xs + init;
      assert InFile(data, xs + init);
      ParseFramesFailurePersists(data, xs, init, parse, e);
    }
  }

  /** A frame whose body does not parse ends the scan with the parse error, whatever the frames
      after it and the framing error. */
  lemma ScanOfUnparsed(data: seq<byte>, pos: nat, parse: seq<byte> -> Result<RecordInfo>,
                       frames: seq<Frame>, f: Frame, e: Error)
    requires InFile(data, frames) && ParseFrames(data, frames, parse).Success?
    requires 0 <= f.offset && 0 < f.length && f.offset + f.length <= |data|
    requires parse(data[f.offset..f.offset + f.length]) == Failure(e)
    requires |Frames(data, pos).0| > |frames| && Frames(data, pos).0[..|frames| + 1] == frames + [f]
    ensures Scan(data, pos, parse) == Failure(e)
  {
    var all := Frames(data, pos).0;
    FramesInFileOrder(data, pos);
    var xs := frames + [f];
    ParseFramesFailAt(data, frames, f, parse, e);
    assert xs + all[|xs|..] == all;
    ParseFramesFailurePersists(data, xs, all[|xs|..], parse, e);
  }

  /** A frame that does not parse after frames that do fails the scan of them all. */
  lemma ParseFramesFailAt(data: seq<byte>, frames: seq<Frame>, f: Frame, parse: seq<byte> -> Result<RecordInfo>, e: Error)
    requires InFile(data, frames) && ParseFrames(data, frames, parse).Success?
    requires 0 <= f.offset && 0 < f.length && f.offset + f.length <= |data|
    requires parse(data[f.offset..f.offset + f.length]) == Failure(e)
    ensures InFile(data, frames + [f]) && ParseFrames(data, frames + [f], parse) == Failure(e)
  {
    var xs := frames + [f];
    assert InFile(data, xs);
    assert xs[..|xs| - 1] == frames;
    assert ParseFrame(data, f, parse) == Failure(e);
    ParseFramesSnocFails(data, xs, parse, e);
  }

  /** One more frame whose body does not parse fails the scan. */
  lemma ParseFramesSnocFails(data: seq<byte>, frames: seq<Frame>, parse: seq<byte> -> Result<RecordInfo>, e: Error)
    requires InFile(data, frames) && |frames| > 0
    requires ParseFrames(data, frames[..|frames| - 1], parse).Success?
    requires ParseFrame(data, frames[|frames| - 1], parse) == Failure(e)
    ensures ParseFrames(data, frames, parse) == Failure(e)
  {
  }

  /** The framing of a file holding one record of body length `total`. */
  lemma FramesOfSingleRecord(total: nat, body: seq<byte>)
    requires 0 < total == |body| < 0x8000_0000
    ensures Frames(LE(total, 4) + body, 0) == ([Frame(4, total)], None)
  {
    var rec := LE(total, 4) + body;
    ReadInt32OfLE(total, body);
    assert ReadInt32(rec, 0) == total;
    assert Frames(rec, 4 + total) == ([], None);
    assert [Frame(4, total)] + [] == [Frame(4, total)];
  }

  /** The zero-padded buffer a `Read` into a fresh array leaves is the window at the cursor. */
  lemma WindowOfRead(data: seq<byte>, p: nat, n: nat, got: seq<byte>)
    requires |got| == ReadCount(|data|, p, n)
    requires |got| > 0 ==> got == data[p..p + |got|]
    ensures got + Zeros(n - |got|) == Window(data, p, n)
  {
  }

  /** A file holding one record whose body parses scans to that record. */
  lemma ScanOfSingleRecord(body: seq<byte>, parse: seq<byte> -> Result<RecordInfo>, info: RecordInfo)
    requires 0 < |body| < 0x8000_0000
    requires parse(body) == Success(info)
    ensures Scan(LE(|body|, 4) + body, 0, parse) == Success([ScannedRecord(info, |body|, 4)])
  {
    var rec := LE(|body|, 4) + body;
    FramesOfSingleRecord(|body|, body);
    assert rec[4..4 + |body|] == body;
    ParseSingleFrame(rec, Frame(4, |body|), parse, info);
  }

  /** A file holding exactly one record written by `Update` scans back to that record, with its
      body starting after the length prefix. */
  lemma SingleRecordScan(kind: byte, name: string, keys: seq<int>, lens: seq<int>, payload: seq<byte>)
    requires ';' !in name
    requires |keys| == |lens| >= 1
    requires forall i :: 0 <= i < |keys| ==> IsInt32(keys[i]) && IsInt32(lens[i])
    requires |Metadata(kind, name, keys, lens)| + |payload| < 0x8000_0000
    ensures ScanRecords(Record(Metadata(kind, name, keys, lens), payload), 0)
         == Success([ScannedRecord(RecordInfo(kind, name, keys, lens), |Metadata(kind, name, keys, lens)| + |payload|, 4)])
  {
    var m := Metadata(kind, name, keys, lens);
    assert Record(m, payload) == LE(|m + payload|, 4) + (m + payload);
    RecordRoundTrip(kind, name, keys, lens, payload);
    ScanOfSingleRecord(m + payload, ParseRecord, RecordInfo(kind, name, keys, lens));
  }

  // ---------------------------------------------------------------- relocation arithmetic

  /** `UpdateSectorWhenMovement`: the new offset of another sector when the sector whose body was
      at `offset`, with total `length`, is rewritten. */
  function MovedOffset(own: int, offset: int, length: int): int
  {
    if offset < own then own - (length + offset - 4) else own
  }

  /** The shift applied to a later sector equals the `length + 4` bytes actually cut out only when
      the moved record's body started at offset 8. */
  lemma MovedOffsetMatchesCut(own: int, offset: int, length: int)
    requires offset < own
    ensures MovedOffset(own, offset, length) == own - (length + 4) <==> offset == 8
    ensures MovedOffset(own, offset, length) < own <==> length + offset > 4
  {
  }

  /** The file after the block-copy loop that slides the tail `f[end..]` back to `start`: only
      the first block lands where it should; later reads start at the write cursor and rewrite the
      bytes already there. */
  function TailCopied(f: seq<byte>, start: int, end: int): (r: seq<byte>)
    requires 0 <= start <= end <= |f|
    ensures |r| == |f|
  {
    var b1 := if BLOCK_SIZE > |f| - end then |f| - end else BLOCK_SIZE;
    f[..start] + f[end..end + b1] + f[start + b1..]
  }

  /** When the tail fits in one block, the loop slides it back exactly. */
  lemma TailCopiedOneBlock(f: seq<byte>, start: int, end: int)
    requires 0 <= start <= end <= |f|
    requires |f| - end <= BLOCK_SIZE
    ensures TailCopied(f, start, end) == f[..start] + f[end..] + f[start + |f| - end..]
    ensures TailCopied(f, start, end)[..start + |f| - end] == f[..start] + f[end..]
  {
    assert f[end..end + (|f| - end)] == f[end..];
  }

  /** When the tail is longer than one block, the bytes after the first block are not slid back. */
  lemma TailCopiedManyBlocks(f: seq<byte>, start: int, end: int)
    requires 0 <= start < end <= |f|
    requires |f| - end > BLOCK_SIZE
    requires f[start + BLOCK_SIZE] != f[end + BLOCK_SIZE]
    ensures TailCopied(f, start, end)[start + BLOCK_SIZE] != (f[..start] + f[end..])[start + BLOCK_SIZE]
  {
  }

  /** The file after a size-changing rewrite of a persisted record: tail slid back, new record
      written at the end of the slid tail, then the file cut to size if it shrank. */
  function RewrittenFile(f: seq<byte>, start: int, end: int, rec: seq<byte>, oldLength: int): seq<byte>
    requires 0 <= start <= end <= |f|
    requires |rec| >= 4
  {
    var written := Overwrite(TailCopied(f, start, end), start + |f| - end, rec);
    var total := |rec| - 4;
    if total < oldLength && |written| - oldLength + total >= 0 then Resized(written, |written| - oldLength + total)
    else written
  }

  /** With a one-block tail, a size-changing rewrite is a splice: the old record is cut out, the
      rest of the file closes up and the new record goes at the end. */
  lemma {:induction false} RewriteIsSplice(f: seq<byte>, start: int, end: int, rec: seq<byte>)
    requires 0 <= start <= end <= |f|
    requires |f| - end <= BLOCK_SIZE
    requires |rec| >= 4
    ensures RewrittenFile(f, start, end, rec, end - start - 4) == f[..start] + f[end..] + rec
  {
    var tail := |f| - end;
    var copied := TailCopied(f, start, end);
    TailCopiedOneBlock(f, start, end);
    var written := Overwrite(copied, start + tail, rec);
    var spliced := f[..start] + f[end..] + rec;
    assert |spliced| == start + tail + |rec|;
    var total := |rec| - 4;
    if total < end - start - 4 {
      var cut := Resized(written, |written| - (end - start - 4) + total);
      assert |cut| == |spliced|;
      forall i | 0 <= i < |cut|
        ensures cut[i] == spliced[i]
      {
        if i < start + tail {
          assert copied[i] == (f[..start] + f[end..])[i];
        } else {
          assert written[start + tail + (i - start - tail)] == rec[i - start - tail];
        }
      }
    } else {
      assert |written| == |spliced|;
      forall i | 0 <= i < |written|
        ensures written[i] == spliced[i]
      {
        if i < start + tail {
          assert copied[i] == (f[..start] + f[end..])[i];
        } else {
          assert written[start + tail + (i - start - tail)] == rec[i - start - tail];
        }
      }
    }
  }

  /** With a one-block tail, deleting a record cuts exactly its `length + 4` bytes out. */
  lemma DeleteIsSplice(f: seq<byte>, start: int, end: int)
    requires 0 <= start <= end <= |f|
    requires |f| - end <= BLOCK_SIZE
    ensures Resized(TailCopied(f, start, end), |f| - (end - start)) == f[..start] + f[end..]
  {
    TailCopiedOneBlock(f, start, end);
  }

  /** Rewriting a record of unchanged size in place touches only its own bytes. */
  lemma InPlaceRewrite(f: seq<byte>, start: int, rec: seq<byte>)
    requires 0 <= start && start + |rec| <= |f|
    ensures Overwrite(f, start, rec) == f[..start] + rec + f[start + |rec|..]
  {
    OverwriteInside(f, start, rec);
  }

  /** The file after appending a record to a sector that is new (never written, or deleted): when
      the new total is below the recorded `Length`, the file is cut by their difference. */
  function AppendedFile(f: seq<byte>, rec: seq<byte>, oldLength: int): seq<byte>
    requires |rec| >= 4
  {
    var written := f + rec;
    var total := |rec| - 4;
    if total < oldLength && |written| - oldLength + total >= 0 then Resized(written, |written| - oldLength + total)
    else written
  }

  /** Appending to a sector with no stale length adds the record at the end of the file. */
  lemma AppendAtEnd(f: seq<byte>, rec: seq<byte>)
    requires |rec| >= 4
    ensures AppendedFile(f, rec, 0) == f + rec
    ensures AppendedFile(f, rec, 0)[|f| + 4..] == rec[4..]
  {
  }

  /** A deleted sector keeps its old `Length`; appending a smaller record to it later truncates
      that new record. */
  lemma AppendAfterDeleteTruncates(f: seq<byte>, rec: seq<byte>, staleLength: int)
    requires |rec| >= 4
    requires |rec| - 4 < staleLength <= |f| + 2 * (|rec| - 4) + 4
    ensures |AppendedFile(f, rec, staleLength)| < |f| + |rec|
    ensures |AppendedFile(f, rec, staleLength)| == |f| + |rec| - (staleLength - (|rec| - 4))
  {
  }

  // ---------------------------------------------------------------- payload extraction

  /** The `n` bytes at `p` as read into a zeroed buffer: missing bytes stay zero. */
  function Window(data: seq<byte>, p: nat, n: nat): (w: seq<byte>)
    ensures |w| == n
    ensures forall i :: 0 <= i < n && p + i < |data| ==> w[i] == data[p + i]
    ensures forall i :: 0 <= i < n && p + i >= |data| ==> w[i] == 0
  {
    var avail := ReadCount(|data|, p, n);
    (if avail == 0 then [] else data[p..p + avail]) + Zeros(n - avail)
  }

  /** The payload buffered for a sector whose record is in the file is exactly the payload that was
      written after its metadata. */
  lemma PayloadOfRecord(before: seq<byte>, metadata: seq<byte>, payload: seq<byte>, after: seq<byte>)
    ensures var f := before + Record(metadata, payload) + after;
      Window(f, |before| + 4 + |metadata|, |metadata| + |payload| - |metadata|) == payload
  {
    var f := before + Record(metadata, payload) + after;
    var w := Window(f, |before| + 4 + |metadata|, |payload|);
    forall i | 0 <= i < |payload|
      ensures w[i] == payload[i]
    {
      assert f[|before| + 4 + |metadata| + i] == payload[i];
    }
  }
}
