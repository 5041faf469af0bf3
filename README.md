# Nucleus storage engine in Dafny

Nucleus is a single-file embedded store for .NET. A connection owns one stream (the file). The
file is a run of length-prefixed sector records, and each sector holds a named, typed collection:
a list (`Query<T>`), a typed map (`DictionaryQuery<T>`) or a dynamic map keyed by name and type
(`DynamicDictionaryQuery`). This project models the storage engine under those collections, layer
by layer, and proves what each layer does to the bytes it owns.

- **Slot directory** (`SlotDirectory`, `ordered_dictionary.dfy`): the `OrderedDictionary` class.
  It keeps two parallel integer lists mapping slot index to byte length, in insertion order.
  It has a textual form `k:v;k:v` and a prefix-sum slot offset.
- **Primitive codec** (`Codec`, `codec.dfy`): `PreSerialize` / `PreDeserialize<T>` on a
  little-endian host.
  - Integers, bool, char, byte and TimeSpan ticks use fixed-width encodings.
  - Strings are UTF-8 (RFC 3629, modelled in `Utf8`).
  - Integer arrays are their elements concatenated. `byte[]` passes through.
  - Every other type goes to the host's `Serialize` / `Deserialize` hooks, which are parameters of the model.
- **Record format and persistence** (`Records`, `records.dfy`; `Sectors.Sector`, `sectors.dfy`):
  - the record layout `[u32 total][type][u32 metaLen][UTF-8 "name;k:v;..."][payload]` and its parser;
  - the scan over a whole file;
  - `Sector.Update`, which rewrites the file in one of four ways: append a new record,
    overwrite in place, cut out and re-append, or delete.
- **Catalog** (`Sectors.SectorEnumerator`):
  - the scan that builds the sectors at start-up;
  - name/type resolution that lower-cases the name and rejects `;`;
  - the reorder done by both `UpdateSector` overloads, with the broadcast of moves and changes to
    the other sectors and their queries;
  - payload extraction and `TryReadBytes`.
- **Slot engine** (`BaseQueries.BaseQuery`, `base_query.dfy`): splice-write, remove, clear and read
  on the sector's in-memory buffer. It also keeps the dirty flag with `Save` / `Dispose` and the
  deserialisation cache.
- **Façades** (`ListQueries.Query`, `DictionaryQueries.DictionaryQuery`,
  `DynamicDictionaryQueries.DynamicDictionaryQuery`): bookkeeping from list positions or keys to
  slot indices.
- **Connection** (`Connections.Connection`): the factories, which choose the sector type for each
  kind of query.

The .NET streams are modelled as `Streams.ByteStream` (a byte sequence and a cursor, with the
`Seek`, `Read`, `Write`, `SetLength` and `WriteTo` behaviour of `MemoryStream`). Exceptions become
`Failure` results; a `Try*` method returns `false` where the source catches. Stateful objects are
classes whose methods state their whole new state against specification functions. Those
functions then carry the round-trips and layout lemmas.

The source has several quirks, and the model keeps each one as written. Each has a lemma that
exhibits it:

- the tail-copy loops only work for a one-block tail (`Records.TailCopiedManyBlocks`);
- the relocation shift is `length + offset - 4` (`Records.MovedOffsetMatchesCut`);
- the in-place branch resets `Offset` as if the record were last (`Sectors.PersistInPlace`);
- `TryRemove` keeps the directory entry (`BaseQueries.CutBreaksLayout`);
- integer arrays read element k at offset 4(k+1) (`Codec.NarrowArrayRoundTripFails`,
  `Codec.LongArrayRoundTripWrong`);
- `DynamicDictionaryQuery.Remove` removes list position i+2 (`DynamicDictionaryQueries.RemoveKeepsPair`);
- `UpdateSector` removes the first *equal* sector (`Sectors.MovedToEndDropsTwin`).

Four behaviours a reader may not expect, kept as the code has them:

- Other sectors shift by `length + offset - 4`, not by the bytes removed.
- A deleted sector keeps its stale length and directory.
- `TryRemove` and `TryClear` leave the directory alone.
- A scalar is read from offset 0, and extra bytes are ignored rather than rejected.

## Model

| member | source | states |
|---|---|---|
| Bytes.LE | Nucleus/CoreConnection.cs:29-40 | the little-endian encoding of a width-w integer has exactly w bytes |
| Bytes.FromLEBound | Nucleus/CoreConnection.cs:154-165 | the integer read back from w little-endian bytes is below 256^w |
| Bytes.FromLEOfLE | Nucleus/CoreConnection.cs:154-165 | reading back the little-endian bytes of any in-range unsigned value returns that value |
| Bytes.LEOfFromLE | Nucleus/CoreConnection.cs:154-165 | re-encoding the value read from a byte sequence gives back the same bytes (the other direction of the round-trip) |
| Bytes.Wrap | Nucleus/CoreConnection.cs:29-34 | a signed value is stored as its two's-complement image, an unsigned number below 256^w |
| Bytes.SignedOfWrap | Nucleus/CoreConnection.cs:154-159 | reinterpreting a two's-complement image as signed returns the original signed value |
| Text.Split | Nucleus/Queries/OrderedDictionary.cs:24-26 | `String.Split` yields at least one piece, and no piece contains the separator |
| Text.SplitNoSeparator | Nucleus/Queries/OrderedDictionary.cs:24 | a string without the separator splits into itself alone |
| Text.SplitAtSeparator | Nucleus/Queries/OrderedDictionary.cs:24 | splitting `a;b` where `a` has no separator gives `a` followed by the pieces of `b` |
| Text.SplitJoin | Nucleus/Sectors/Sector.cs:61 | joining separator-free pieces and splitting again returns the pieces |
| Text.JoinSplit | Nucleus/Queries/DictionaryQuery.cs:21 | splitting and joining again returns the original string |
| Text.JoinAppend | Nucleus/Queries/DictionaryQuery.cs:86-87 | joining a list with one more element appends the separator and that element |
| Text.NatText | Nucleus/Sectors/Sector.cs:61 | the decimal text of a natural number is non-empty and all digits |
| Text.DigitsValueOfNatText | Nucleus/Queries/OrderedDictionary.cs:28-29 | the value of the decimal text of n is n |
| Text.ParseInt | Nucleus/Queries/OrderedDictionary.cs:28-29 | `int.Parse` succeeds exactly on an optionally signed digit string whose value fits in 32 bits, and its result is in range |
| Text.ParseIntText | Nucleus/Queries/OrderedDictionary.cs:28-29 | parsing the text of any 32-bit integer returns that integer |
| Text.IntTextHasNo | Nucleus/Sectors/Sector.cs:61 | the text of an integer contains no `;` or `:`, nor any other character that is neither a digit nor `-` |
| Text.IndexOfChar | Nucleus/Sectors/Sector.cs:96 | `IndexOf(';')` is the first position of the character, or -1 exactly when it is absent |
| Text.Lower | Nucleus/Sectors/SectorEnumerator.cs:74 | `ToLower` keeps the length and lower-cases each character independently |
| Text.LowerIdempotent | Nucleus/Sectors/SectorEnumerator.cs:74 | lower-casing twice equals lower-casing once, so a resolved name resolves to itself |
| Text.LowerKeepsSemicolons | Nucleus/Sectors/SectorEnumerator.cs:74-79 | the name contains `;` after lower-casing iff it did before |
| Utf8.EncodeChar | Nucleus/CoreConnection.cs:50 | one character encodes to one to four bytes |
| Utf8.Encode | Nucleus/CoreConnection.cs:50 | the encoding is at least as long as the string |
| Utf8.DecodeOne | Nucleus/CoreConnection.cs:175 | decoding one character consumes one to four bytes of the input |
| Utf8.DecodeOneEncodeChar | Nucleus/CoreConnection.cs:175 | decoding the encoding of a character, whatever follows it, returns that character and its width |
| Utf8.DecodeEncode | Nucleus/CoreConnection.cs:175 | decoding the UTF-8 encoding of any string returns the string |
| Utf8.EncodeAppend | Nucleus/Sectors/Sector.cs:62-67 | encoding distributes over concatenation |
| Utf8.EncodeAscii | Nucleus/Sectors/Sector.cs:62-67 | an ASCII string encodes to one byte per character |
| Codec.DecodeIntElements | Nucleus/CoreConnection.cs:180-191 | a successful element decode yields one element per requested index |
| Codec.DecodeBoolElements | Nucleus/CoreConnection.cs:196-197 | a successful bool-array decode yields one element per requested index |
| Codec.DecodeCharElements | Nucleus/CoreConnection.cs:198-199 | a successful char-array decode yields one element per requested index |
| Codec.NullEncodesEmpty | Nucleus/CoreConnection.cs:27-28 | null serialises to the empty byte array |
| Codec.ScalarWidthFixed | Nucleus/CoreConnection.cs:29-58 | a scalar's encoding has the width of its type: 2 for short, ushort and char; 4 for int and uint; 8 for long, ulong and TimeSpan; 1 for bool and byte |
| Codec.ReadIntOfIntBytes | Nucleus/CoreConnection.cs:154-165 | `BitConverter.ToXxx(bytes, 0)` on the encoding of an in-range integer, with any trailing bytes, returns it |
| Codec.ScalarRoundTrip | Nucleus/CoreConnection.cs:154-179 | deserialising the encoding of any integer, bool, char, byte or TimeSpan scalar, with any trailing bytes, returns the value |
| Codec.StringRoundTrip | Nucleus/CoreConnection.cs:174-175 | deserialising a string's UTF-8 encoding returns the string |
| Codec.BytesPassThrough | Nucleus/CoreConnection.cs:202-203 | `byte[]` is returned unchanged by both serialise and deserialise |
| Codec.HostFallback | Nucleus/CoreConnection.cs:208-209 | a host-defined type is handed to the host's `Serialize` and `Deserialize<T>` hooks, both ways |
| Codec.IntArrayLayout | Nucleus/CoreConnection.cs:59-70 | an n-element integer array encodes to n times the element width, with element j at bytes [j*w, (j+1)*w) |
| Codec.IntArrayLength | Nucleus/CoreConnection.cs:59-70 | the encoded array has n times the element width bytes |
| Codec.DecodeIntElementsAt | Nucleus/CoreConnection.cs:180-191 | decoded element j is the integer read at offset 4(j+1), the pre-incremented `i += 4` |
| Codec.IntArrayDecodeLayout | Nucleus/CoreConnection.cs:180-191 | an array decode yields `bytes.Length / width` elements, element j read at offset 4(j+1) |
| Codec.DecodeIntElementsFailsAt | Nucleus/CoreConnection.cs:180-191 | one unreadable element offset makes the whole array decode fail |
| Codec.NarrowArrayRoundTripFails | Nucleus/CoreConnection.cs:180-189 | for short, int, ushort and uint arrays, deserialising a non-empty serialised array fails, because the last read runs past the end |
| Codec.LongPairBytes | Nucleus/CoreConnection.cs:63-64 | the long array [0, 1] serialises to sixteen concrete bytes |
| Codec.LongPairReads | Nucleus/CoreConnection.cs:184-185 | the two 8-byte windows at offsets 4 and 8 of those bytes read as 2^32 and 1 |
| Codec.LongPairDecode | Nucleus/CoreConnection.cs:184-185 | decoding those sixteen bytes as two longs yields [2^32, 1] |
| Codec.LongPairSerialized | Nucleus/CoreConnection.cs:63-64 | `PreSerialize` of the long array [0, 1] is those sixteen bytes |
| Codec.LongArrayRoundTripWrong | Nucleus/CoreConnection.cs:184-185 | a long array round-trips to a different array: [0, 1] comes back as [2^32, 1] |
| Codec.EmptyIntArrayRoundTrip | Nucleus/CoreConnection.cs:180-191 | the empty array of each integer type round-trips |
| SlotDirectory.IndexOf | Nucleus/Queries/OrderedDictionary.cs:37 | `Keys.IndexOf` is the first position of the key, or -1 exactly when it is absent |
| SlotDirectory.RemoveAtShape | Nucleus/Queries/OrderedDictionary.cs:54-55 | `RemoveAt(i)` drops exactly element i, keeps the order of the rest, and is a permutation minus that element |
| SlotDirectory.PushToEndKeepsOthers | Nucleus/Queries/OrderedDictionary.cs:65-77 | `PushToEnd(key, value)` leaves every other key listed or unlisted as it was, with the value it had |
| SlotDirectory.SlotOffsetIsPrefixSum | Nucleus/Queries/BaseQuery.cs:58 | the slot offset (`TakeWhile(key != index).Sum`) is the sum of the lengths before the key's first position, or of all lengths when the key is absent |
| SlotDirectory.EntryTexts | Nucleus/Sectors/Sector.cs:61 | the directory is written as one `k:v` entry per pair |
| SlotDirectory.ParseEntry | Nucleus/Queries/OrderedDictionary.cs:26-29 | a parsed `k:v` entry has two 32-bit integers |
| SlotDirectory.ParseEntries | Nucleus/Queries/OrderedDictionary.cs:24-30 | a successful parse yields one key and one value per piece |
| SlotDirectory.ParseEntriesFailureExtends | Nucleus/Queries/OrderedDictionary.cs:24-30 | a parse error in a prefix of the pieces makes the whole parse fail (the constructor throws) |
| SlotDirectory.ParseEntryText | Nucleus/Queries/OrderedDictionary.cs:26-29 | parsing the text `k:v` of two 32-bit integers returns that pair |
| SlotDirectory.ParseEntriesSnoc | Nucleus/Queries/OrderedDictionary.cs:24-30 | the parse of pieces plus one is the parse of the pieces plus that entry, in order |
| SlotDirectory.ParseEntriesOfTexts | Nucleus/Queries/OrderedDictionary.cs:24-30 | parsing the written entries returns exactly the keys and lengths, in order |
| SlotDirectory.EntryTextHasNoSemicolon | Nucleus/Sectors/Sector.cs:61 | an entry `k:v` contains no `;` |
| SlotDirectory.DirectoryRoundTrip | Nucleus/Queries/OrderedDictionary.cs:22-31 | parsing the `k:v;k:v` text of a non-empty directory of 32-bit values returns exactly its pairs in order |
| SlotDirectory.EmptyDirectoryDoesNotParse | Nucleus/Queries/OrderedDictionary.cs:22-31 | the empty directory is written as "" and "" does not parse (a single empty piece has no `:`) |
| SlotDirectory.OrderedDictionary.constructor | Nucleus/Queries/OrderedDictionary.cs:16-20 | a new directory has empty `Keys` and `Values` |
| SlotDirectory.OrderedDictionary.Of | Nucleus/Queries/OrderedDictionary.cs:16-20 | a directory built from two equal-length lists holds exactly them |
| SlotDirectory.OrderedDictionary.FromText | Nucleus/Queries/OrderedDictionary.cs:22-31 | the parse constructor succeeds iff the text parses, and then holds exactly the parsed pairs |
| SlotDirectory.OrderedDictionary.Length | Nucleus/Queries/OrderedDictionary.cs:12-14 | `Length` is the number of keys, which equals the number of values |
| SlotDirectory.OrderedDictionary.ContainsKey | Nucleus/Queries/OrderedDictionary.cs:79-82 | true iff the key is in `Keys` |
| SlotDirectory.OrderedDictionary.Get | Nucleus/Queries/OrderedDictionary.cs:35-39 | the getter succeeds iff the key is present and returns the value at its first position; an absent key raises the list's argument error |
| SlotDirectory.OrderedDictionary.Set | Nucleus/Queries/OrderedDictionary.cs:41-45 | the setter changes only the value at the key's first position; an absent key fails and changes nothing |
| SlotDirectory.OrderedDictionary.Remove | Nucleus/Queries/OrderedDictionary.cs:48-57 | a present key loses its first pair, the rest keeping their order; an absent key changes nothing |
| SlotDirectory.OrderedDictionary.Add | Nucleus/Queries/OrderedDictionary.cs:59-63 | appends the pair at the end with no duplicate check; earlier pairs are unchanged |
| SlotDirectory.OrderedDictionary.PushToEnd | Nucleus/Queries/OrderedDictionary.cs:65-77 | the new state is the old one with the key's first pair removed and the pair appended |
| SlotDirectory.OrderedDictionary.Enumerate | Nucleus/Queries/OrderedDictionary.cs:84-91 | enumeration yields the pairs (Keys[i], Values[i]) in list position order |
| SlotDirectory.PushToEndShape | Nucleus/Queries/OrderedDictionary.cs:65-77 | after `PushToEnd(k, v)`, k is last with v; the others keep their order; the length grows by one only if k was absent |
| SlotDirectory.RemoveAtKeepsDistinct | Nucleus/Queries/OrderedDictionary.cs:48-57 | removing from distinct keys keeps them distinct and drops the removed key |
| SlotDirectory.PushToEndKeepsDistinct | Nucleus/Queries/OrderedDictionary.cs:65-77 | `PushToEnd` keeps keys distinct and keeps the same key multiset |
| Streams.Zeros | Nucleus/Sectors/SectorEnumerator.cs:58 | a fresh buffer is n zero bytes |
| Streams.Overwrite | Nucleus/Queries/BaseQuery.cs:63-64 | a stream write at position p replaces bytes from p, zero-fills any gap past the end and keeps every other byte |
| Streams.OverwriteInside | Nucleus/Queries/BaseQuery.cs:63-64 | a write inside the stream is the slice splice `data[..p] + bytes + data[p+n..]` |
| Streams.OverwriteAtEnd | Nucleus/Queries/BaseQuery.cs:92-93 | a write at the end appends |
| Streams.OverwriteConcat | Nucleus/Sectors/Sector.cs:193-197 | two consecutive writes equal one write of the concatenation |
| Streams.OverwriteSame | Nucleus/Queries/BaseQuery.cs:63-64 | writing back the bytes already there changes nothing |
| Streams.ReadCount | Nucleus/Queries/BaseQuery.cs:200 | `Read` returns the requested count, cut at the end of the stream, and never negative |
| Streams.Resized | Nucleus/Queries/BaseQuery.cs:83 | `SetLength(n)` keeps the first n bytes and zero-extends past the old end |
| Streams.ByteStream.constructor | Nucleus/Sectors/SectorEnumerator.cs:97 | a new memory stream is empty at position 0 |
| Streams.ByteStream.Of | Nucleus/Sectors/SectorEnumerator.cs:20-22 | a stream over given content starts at position 0 |
| Streams.ByteStream.Length | Nucleus/Queries/BaseQuery.cs:83 | `Length` is the number of bytes |
| Streams.ByteStream.Seek | Nucleus/Queries/BaseQuery.cs:63 | seeking to a non-negative position sets it; a negative one fails with an I/O error and changes nothing |
| Streams.ByteStream.SeekEnd | Nucleus/Queries/BaseQuery.cs:92 | seeking to the end puts the cursor at the length |
| Streams.ByteStream.SeekCurrent | Nucleus/Queries/BaseQuery.cs:77 | a relative seek moves the cursor by the offset, failing before position 0 |
| Streams.ByteStream.Read | Nucleus/Queries/BaseQuery.cs:76 | `Read` returns the next bytes from the cursor, at most the count, and advances by that many |
| Streams.ByteStream.Write | Nucleus/Queries/BaseQuery.cs:78 | `Write` overwrites from the cursor and advances it by the byte count |
| Streams.ByteStream.SetLength | Nucleus/Queries/BaseQuery.cs:156 | `SetLength` resizes, clamps the cursor, and fails on a negative length |
| Streams.ByteStream.WriteTo | Nucleus/Sectors/Sector.cs:197 | `WriteTo` writes the whole buffer at the destination cursor |
| Records.Metadata | Nucleus/Sectors/Sector.cs:57-70 | the metadata is the type byte, then the 4-byte length, then the UTF-8 text, so 5 + text length bytes in total |
| Records.Record | Nucleus/Sectors/Sector.cs:193-197 | a record is its 4-byte total followed by metadata and payload |
| Records.ParseRecord | Nucleus/Sectors/Sector.cs:86-102 | a parsed record has equal-length directory lists and a name without `;` |
| Records.ParseMetadataText | Nucleus/Sectors/Sector.cs:95-99 | the name is the text before the first `;`, and the rest is the directory |
| Records.ParseRecordShape | Nucleus/Sectors/Sector.cs:86-102 | every body that parses has equal-length lists, and a body under 4 bytes never parses |
| Records.ReadInt32OfLE | Nucleus/Sectors/Sector.cs:94 | `ToInt32` of the 4-byte little-endian encoding of a non-negative 31-bit value returns it |
| Records.FirstSemicolon | Nucleus/Sectors/Sector.cs:96-99 | for a `;`-free name, the first `;` of `name;rest` splits off exactly the name and the rest |
| Records.HeaderLayout | Nucleus/Sectors/Sector.cs:62-67 | byte 0 is the type, bytes 1-4 hold the text length, and the text follows at 5 |
| Records.MetadataLayout | Nucleus/Sectors/Sector.cs:57-70 | the metadata of any sector has that header layout |
| Records.ParseRecordSteps | Nucleus/Sectors/Sector.cs:86-99 | parsing a body decodes the text at [5, 5+len) and parses it with the type byte |
| Records.RecordRoundTrip | Nucleus/Sectors/Sector.cs:86-102 | parsing metadata plus any payload returns the type, name, keys and lengths it was written from (non-empty directory) |
| Records.EmptyDirectoryRecordFails | Nucleus/Sectors/Sector.cs:86-102 | a record written with an empty directory cannot be parsed back |
| Records.FramesInFileOrder | Nucleus/Sectors/SectorEnumerator.cs:110-129 | the length-prefixed frames lie inside the file, each body 4 bytes after its prefix, back to back and strictly increasing |
| Records.ParseFrame | Nucleus/Sectors/SectorEnumerator.cs:120-122 | a frame parses iff its body parses, keeping its offset and length |
| Records.ParseFrames | Nucleus/Sectors/SectorEnumerator.cs:110-129 | parsing frames yields one record per frame |
| Records.ParseFramesKeepPlaces | Nucleus/Sectors/SectorEnumerator.cs:122 | each parsed record keeps its frame's offset and length |
| Records.ScanInFileOrder | Nucleus/Sectors/SectorEnumerator.cs:23 | scanned records are sorted by offset, non-empty and inside the file, so ordering by `Offset` changes nothing |
| Records.ParseFrameOfParsed | Nucleus/Sectors/SectorEnumerator.cs:120-122 | a frame whose body parses yields that record at the frame's place |
| Records.ParseSingleFrame | Nucleus/Sectors/SectorEnumerator.cs:120-122 | one parsable frame yields one record |
| Records.ParseFramesSnoc | Nucleus/Sectors/SectorEnumerator.cs:115-128 | one more frame appends its record |
| Records.ScanOfFraming | Nucleus/Sectors/SectorEnumerator.cs:110-129 | the scan is the framing's records, or the framing's end-of-stream error |
| Records.ParseFramesFailurePersists | Nucleus/Sectors/SectorEnumerator.cs:110-129 | a parse error in a prefix stays the scan's error |
| Records.ScanOfUnparsed | Nucleus/Sectors/SectorEnumerator.cs:110-129 | the first unparsable frame makes the whole scan fail with its error |
| Records.ParseFramesFailAt | Nucleus/Sectors/SectorEnumerator.cs:120-122 | appending an unparsable frame to a parsed prefix fails with its error |
| Records.ParseFramesSnocFails | Nucleus/Sectors/SectorEnumerator.cs:120-122 | a parsed prefix followed by a failing frame fails |
| Records.FramesOfSingleRecord | Nucleus/Sectors/SectorEnumerator.cs:115-122 | a file of one `[len][body]` frames to one frame at offset 4 |
| Records.WindowOfRead | Nucleus/Sectors/SectorEnumerator.cs:58-69 | the buffer after a short read is the bytes read followed by zeros, which is the file window |
| Records.ScanOfSingleRecord | Nucleus/Sectors/SectorEnumerator.cs:110-129 | a one-record file scans to that record at offset 4 |
| Records.SingleRecordScan | Nucleus/Sectors/SectorEnumerator.cs:110-129 | a file holding one written record scans back to its type, name, directory, length and offset |
| Records.MovedOffsetMatchesCut | Nucleus/Sectors/Sector.cs:116-122 | the shift `length + offset - 4` equals the `length + 4` bytes cut only when the broadcast offset is 8, and moves a later sector backwards only when `length + offset > 4` |
| Records.TailCopied | Nucleus/Sectors/Sector.cs:149-166 | the block-copy loop keeps the file length (the copy is in place) |
| Records.TailCopiedOneBlock | Nucleus/Sectors/Sector.cs:149-166 | with a tail of at most `BLOCK_SIZE` bytes, the loop slides the tail back over the record: `f[..start] + f[end..]` |
| Records.TailCopiedManyBlocks | Nucleus/Sectors/Sector.cs:156-164 | with a longer tail, the second block is re-read from the write cursor, so byte start+4096 differs from the intended slide |
| Records.RewriteIsSplice | Nucleus/Sectors/Sector.cs:149-206 | relocating a record with a one-block tail gives `f[..start] + f[end..] + newRecord` |
| Records.DeleteIsSplice | Nucleus/Sectors/Sector.cs:173-188 | deleting a record with a one-block tail gives `f[..start] + f[end..]` |
| Records.InPlaceRewrite | Nucleus/Sectors/Sector.cs:168-171 | an equal-size rewrite changes only the record's bytes at `Start` |
| Records.AppendAtEnd | Nucleus/Sectors/Sector.cs:190-206 | appending a new record writes it at the file end, and the body follows its 4-byte prefix |
| Records.AppendAfterDeleteTruncates | Nucleus/Sectors/Sector.cs:199-202 | re-appending a deleted sector whose stale length exceeds the new body truncates the file below the appended record |
| Records.Window | Nucleus/Sectors/SectorEnumerator.cs:54-70 | the read buffer holds the file bytes from the offset, and zeros past the end |
| Records.PayloadOfRecord | Nucleus/Sectors/SectorEnumerator.cs:95-108 | the payload window of a record in any file is exactly its payload |
| Sectors.SlotCache.constructor | Nucleus/Queries/BaseQuery.cs:26 | a query's cache starts empty |
| Sectors.Subscription.constructor | Nucleus/Queries/BaseQuery.cs:30 | a query's subscription to `Updated` holds its element type and cache |
| Sectors.CastCache | Nucleus/Queries/BaseQuery.cs:39-42 | `obj as Dictionary<int, T>` keeps the shared cache iff it has the subscriber's element type, and is null otherwise |
| Sectors.RequestedPayload | Nucleus/Sectors/SectorEnumerator.cs:95-108 | the buffered payload is `Length - metadata.Length` bytes (empty when `Length` is 0); a shorter length overflows and a negative seek fails |
| Sectors.Slid | Nucleus/Sectors/Sector.cs:149-166 | the relocation loop succeeds iff start and end lie in the file, giving the copied file and the cursor after the tail |
| Sectors.Placement | Nucleus/Sectors/Sector.cs:145-171 | a new sector seeks to the file end; an equal-size one seeks to `Start`; nothing else changes the file |
| Sectors.WrittenInParts | Nucleus/Sectors/Sector.cs:193-197 | writing prefix, metadata and payload one after another is writing the whole record |
| Sectors.WriteParts | Nucleus/Sectors/Sector.cs:193-197 | the three writes put `total + metadata + payload` at the cursor |
| Sectors.AppendRecord | Nucleus/Sectors/Sector.cs:190-206 | the append branch computes exactly the specified appended file and cursor |
| Sectors.ShrinkBy | Nucleus/Sectors/Sector.cs:199-202 | the file shrinks by `Length - newLength` only when that is positive, failing on a negative size |
| Sectors.SlideBack | Nucleus/Sectors/Sector.cs:149-166 | the relocation loop on the stream computes the specified slid file and cursor |
| Sectors.FirstPass | Nucleus/Sectors/Sector.cs:156-162 | the first block written back is exactly the specified tail copy |
| Sectors.LaterPasses | Nucleus/Sectors/Sector.cs:157-164 | the later passes read back the bytes at the write cursor and leave the file unchanged |
| Sectors.RewritePass | Nucleus/Sectors/Sector.cs:157-164 | one later pass re-writes `min(BLOCK_SIZE, left)` bytes over themselves and advances |
| Sectors.Sector.New | Nucleus/Sectors/Sector.cs:72-84 | a new sector has `Length` 0, `Offset` = file end + 4, `isNew` set, an empty directory, and is subscribed |
| Sectors.Sector.Parsed | Nucleus/Sectors/Sector.cs:86-102 | a parsed sector takes its name, type and directory from the record, with `Offset = end - length` and `isNew` clear |
| Sectors.Sector.SetConnected | Nucleus/Sectors/Sector.cs:45 | setting `Connected` to 0 releases the buffer; other values keep it |
| Sectors.Sector.Stream | Nucleus/Sectors/Sector.cs:48 | the buffer is loaded once from the requested payload and then reused |
| Sectors.Sector.Update | Nucleus/Sectors/Sector.cs:139-208 | the file, cursor, `Length`, `Offset` and `isNew` become those of the persistence function; a moved sector goes to the catalog end; the others shift by the relocation rule |
| Sectors.Sector.Place | Nucleus/Sectors/Sector.cs:143-171 | the positioning step: new sectors seek to the end, equal-size ones to `Start`, others relocate and broadcast |
| Sectors.Sector.SeekToEnd | Nucleus/Sectors/Sector.cs:145-147 | a new sector's write starts at the file end |
| Sectors.Sector.Rewind | Nucleus/Sectors/Sector.cs:168-171 | an equal-size rewrite starts at `Start` |
| Sectors.Sector.Move | Nucleus/Sectors/Sector.cs:149-166 | a changed-size sector is slid out and broadcast as moved |
| Sectors.Sector.Relocate | Nucleus/Sectors/Sector.cs:149-166 | the tail is slid back; on success the sector is moved to the catalog end and the others shift by `length + offset - 4` |
| Sectors.Sector.Store | Nucleus/Sectors/Sector.cs:173-206 | writes the record, or deletes it for an empty payload, and updates `Length`, `Offset` and `isNew` as specified |
| Sectors.Sector.Delete | Nucleus/Sectors/Sector.cs:173-188 | an empty payload truncates the file by `Length + 4` (persisted sectors only) and sets `isNew` |
| Sectors.Sector.WriteRecord | Nucleus/Sectors/Sector.cs:190-206 | a non-empty payload writes the record, sets `Length` to its total and `Offset = io.Length - Length`, and clears `isNew` |
| Sectors.FindSector | Nucleus/Sectors/SectorEnumerator.cs:81 | `FirstOrDefault` finds the first sector with that name and type, or -1 exactly when none matches |
| Sectors.AllBuiltPending | Nucleus/Sectors/SectorEnumerator.cs:115-122 | each scanned record builds one sector in order |
| Sectors.SectorEnumerator.constructor | Nucleus/Sectors/SectorEnumerator.cs:20-25 | an enumerator over a stream starts with no sectors |
| Sectors.SectorEnumerator.Open | Nucleus/Sectors/SectorEnumerator.cs:20-25 | opening fails iff the scan fails; otherwise the catalog holds one sector per scanned record, ordered by offset |
| Sectors.SectorEnumerator.OpenWith | Nucleus/Sectors/SectorEnumerator.cs:20-25 | the same, for any record parser |
| Sectors.SectorEnumerator.Catalog | Nucleus/Sectors/SectorEnumerator.cs:23 | the cache is set to the scanned sectors |
| Sectors.SectorEnumerator.UpdateSectorMoved | Nucleus/Sectors/SectorEnumerator.cs:32-41 | the sector moves to the catalog end; every other subscriber applies the move handler |
| Sectors.SectorEnumerator.UpdateSectorChanged | Nucleus/Sectors/SectorEnumerator.cs:43-52 | the sector moves to the catalog end; equal sectors adopt its buffer, directory and connection count; its queries receive the cache |
| Sectors.SectorEnumerator.ShareState | Nucleus/Sectors/Sector.cs:124-131 | every sector equal to the sender takes its buffer, directory and connection count; the rest are untouched |
| Sectors.SectorEnumerator.NotifyListeners | Nucleus/Sectors/Sector.cs:132-135 | each query on the sector gets the broadcast cache, cast to its element type |
| Sectors.SectorEnumerator.OfNameAndType | Nucleus/Sectors/SectorEnumerator.cs:72-93 | fails with a format error iff the lower-cased name has `;`; otherwise returns the first cached sector with that name and type, or a new one at the file end appended to the catalog |
| Sectors.SectorEnumerator.RequestMemoryStream | Nucleus/Sectors/SectorEnumerator.cs:95-108 | the buffer holds the requested payload bytes, read from `Offset + metadata.Length` |
| Sectors.SectorEnumerator.ReadPayload | Nucleus/Sectors/SectorEnumerator.cs:99-107 | seeks, reads and copies exactly the requested payload |
| Sectors.SectorEnumerator.RemoveSector | Nucleus/Sectors/SectorEnumerator.cs:27-30 | `List.Remove` drops the first equal sector from the catalog |
| Sectors.SectorEnumerator.Read | Nucleus/Sectors/SectorEnumerator.cs:110-129 | the scan succeeds iff the record scan does, building one sector per record |
| Sectors.SectorEnumerator.Collect | Nucleus/Sectors/SectorEnumerator.cs:115-128 | the scan loop ends in a state that matches the scan's specification |
| Sectors.SectorEnumerator.Begin | Nucleus/Sectors/SectorEnumerator.cs:112-115 | the loop starts in a state that matches the specification |
| Sectors.SectorEnumerator.FoundJoins | Nucleus/Sectors/SectorEnumerator.cs:122 | a record found extends the scanned prefix and the built sectors by one |
| Sectors.SectorEnumerator.ReadRecord | Nucleus/Sectors/SectorEnumerator.cs:115-127 | one loop step reads one frame and builds its sector, or ends the scan |
| Sectors.SectorEnumerator.ReadFrame | Nucleus/Sectors/SectorEnumerator.cs:115-121 | reads the 4-byte length and the body, or stops at end-of-stream or a short body |
| Sectors.SectorEnumerator.TryReadBytes | Nucleus/Sectors/SectorEnumerator.cs:54-70 | the buffer is the file window, and the result is true iff exactly `length` bytes were read; a negative offset or length throws |
| Sectors.SectorsInFileOrder | Nucleus/Sectors/SectorEnumerator.cs:23 | the scanned sectors are in strictly increasing offset order |
| Sectors.ScanningStart | Nucleus/Sectors/SectorEnumerator.cs:112-115 | the scan invariant holds at the start |
| Sectors.ScanningStep | Nucleus/Sectors/SectorEnumerator.cs:115-122 | one record found preserves the scan invariant |
| Sectors.ParsedPrefixGrows | Nucleus/Sectors/SectorEnumerator.cs:120-122 | a parsed frame extends the parsed prefix |
| Sectors.FramedPrefixGrows | Nucleus/Sectors/SectorEnumerator.cs:115-120 | a frame read extends the framed prefix |
| Sectors.ScanningEnd | Nucleus/Sectors/SectorEnumerator.cs:115-128 | when the loop stops, the result is the scan's result |
| Sectors.PersistNewEmpty | Nucleus/Sectors/Sector.cs:175-178 | a new sector with an empty payload leaves the file untouched |
| Sectors.PersistNewAppends | Nucleus/Sectors/Sector.cs:190-206 | a new sector appends its record at the file end, `Length` becomes the total, `Offset = fileLen - Length`, and `isNew` is cleared |
| Sectors.PersistRelocates | Nucleus/Sectors/Sector.cs:149-206 | a changed size relocates the record to the end of the copied file and moves the sector |
| Sectors.WrittenAfterTail | Nucleus/Sectors/Sector.cs:190-206 | writing after the tail copy yields the rewritten file |
| Sectors.PersistRelocatesOneBlock | Nucleus/Sectors/Sector.cs:149-206 | with a one-block tail, the file becomes `file[..Start] + file[End..] + newRecord` |
| Sectors.PersistDeletes | Nucleus/Sectors/Sector.cs:173-188 | an empty payload cuts the record out and sets `isNew` again, keeping the stale `Length` and `Offset` |
| Sectors.PersistInPlace | Nucleus/Sectors/Sector.cs:168-206 | an unchanged size overwrites the record at `Start` and no other byte, and `Offset` stays right only when the record is last |
| Sectors.PersistThenLoad | Nucleus/Sectors/Sector.cs:190-206 | the payload of an appended record reads back as that payload |
| Sectors.PersistIntoEmpty | Nucleus/Sectors/Sector.cs:190-206 | saving a first sector into an empty file writes exactly its record |
| Sectors.PersistThenScan | Nucleus/Sectors/SectorEnumerator.cs:110-129 | the file written by saving a first sector scans back to it |
| Sectors.EqualsIsEquivalence | Nucleus/Sectors/Sector.cs:104-107 | `Equals` (same name and type) is reflexive, symmetric and transitive |
| Sectors.FindAfterCreate | Nucleus/Sectors/SectorEnumerator.cs:89-91 | a sector appended after a miss is the one found next time, so repeated calls return the same object |
| Sectors.MovedToEndKeepsMembers | Nucleus/Sectors/SectorEnumerator.cs:32-52 | when no other sector is equal, moving to the end keeps the same members and puts the sector last |
| Sectors.MovedToEndDropsTwin | Nucleus/Sectors/SectorEnumerator.cs:34-35 | `Remove` drops the first equal sector, so a twin with the same name and type is lost and the sector appears twice |
| BaseQueries.Chunk | Nucleus/Queries/BaseQuery.cs:76 | one read takes at most `BLOCK_SIZE` bytes from the cursor |
| BaseQueries.Copied | Nucleus/Queries/BaseQuery.cs:73-80 | the chunk loop leaves a non-negative cursor |
| BaseQueries.CopiedOneBlock | Nucleus/Queries/BaseQuery.cs:73-80 | with a one-block tail, the loop gives `f[..off] + f[off+gap..]` followed by the stale last gap bytes |
| BaseQueries.CopiedInPlace | Nucleus/Queries/BaseQuery.cs:73-80 | with an old length of 0 the loop rewrites bytes over themselves, for any tail length |
| BaseQueries.SlotBounds | Nucleus/Queries/BaseQuery.cs:57-58 | a present slot lies inside the sum of the lengths, and removing it takes its length off the sum |
| BaseQueries.SumRemoveAt | Nucleus/Queries/BaseQuery.cs:58 | the total length minus one entry is the sum of the rest |
| BaseQueries.SpliceAppends | Nucleus/Queries/BaseQuery.cs:90-96 | writing an absent index appends the bytes and adds (index, len) as the last directory entry |
| BaseQueries.SpliceInPlace | Nucleus/Queries/BaseQuery.cs:55-65 | writing the same length overwrites the bytes at the slot's offset, and the directory is unchanged |
| BaseQueries.SpliceMoves | Nucleus/Queries/BaseQuery.cs:66-88 | a different length with a one-block tail (or old length 0) gives `buf[..off] + buf[off+old..] + new`, with the entry pushed to the end |
| BaseQueries.SpliceIsResize | Nucleus/Queries/BaseQuery.cs:66-88 | the changed-length branch is the resize step |
| BaseQueries.ResizeKeeps | Nucleus/Queries/BaseQuery.cs:66-88 | the resize step under the one-block condition is the slice splice |
| BaseQueries.ResizeAfterCopy | Nucleus/Queries/BaseQuery.cs:73-87 | the resize is the copy loop followed by the re-append, and a failed copy stops it |
| BaseQueries.CopiedKeeps | Nucleus/Queries/BaseQuery.cs:73-80 | the copy keeps the buffer length, with `buf[..off] + buf[off+gap..]` at the front |
| BaseQueries.ReappendedAfterCopy | Nucleus/Queries/BaseQuery.cs:82-87 | after the copy, the shrink and the write leave `kept + new` and push the entry |
| BaseQueries.OverwriteTail | Nucleus/Queries/BaseQuery.cs:86 | writing past the stale tail gives the prefix followed by the new bytes |
| BaseQueries.SpliceKeepsLayout | Nucleus/Queries/BaseQuery.cs:53-100 | every write keeps "buffer length = sum of the lengths" when the tail fits in one block |
| BaseQueries.MovedKeepsLayout | Nucleus/Queries/BaseQuery.cs:87 | pushing an entry to the end keeps lengths non-negative and changes the sum by the length difference |
| BaseQueries.SpliceKeepsSized | Nucleus/Queries/BaseQuery.cs:53-100 | a write keeps every recorded length non-negative when all of them were |
| BaseQueries.SpliceKeepsOthers | Nucleus/Queries/BaseQuery.cs:53-100 | a write to one slot leaves every other slot listed or unlisted as it was, with its recorded length |
| BaseQueries.CutNothing | Nucleus/Queries/BaseQuery.cs:131-140 | removing an absent index, or one of length 0 or less, leaves the buffer alone |
| BaseQueries.CutOneBlock | Nucleus/Queries/BaseQuery.cs:140-157 | with a one-block tail, the buffer loses exactly the slot's bytes: `buf[..off] + buf[off+len..]` |
| BaseQueries.CutIsTrimmed | Nucleus/Queries/BaseQuery.cs:140-157 | the removal is the copy loop followed by the shrink |
| BaseQueries.ShortenAfterCopy | Nucleus/Queries/BaseQuery.cs:145-156 | the shortening is the copy followed by `SetLength(Length - oldLength)` |
| BaseQueries.TrimmedAfterCopy | Nucleus/Queries/BaseQuery.cs:156 | the shrink drops exactly the stale tail |
| BaseQueries.CutBreaksLayout | Nucleus/Queries/BaseQuery.cs:131-168 | after `TryRemove` the directory still lists the removed length, so "buffer length = sum of lengths" no longer holds |
| BaseQueries.SlotReadWhole | Nucleus/Queries/BaseQuery.cs:185-202 | reading a present slot returns exactly its `len` bytes at its offset |
| BaseQueries.WindowSlice | Nucleus/Queries/BaseQuery.cs:197-200 | a read inside the buffer returns the slice and reports success |
| BaseQueries.WindowInside | Nucleus/Queries/BaseQuery.cs:197-200 | reading the middle part of a concatenation returns it |
| BaseQueries.SpliceThenRead | Nucleus/Queries/BaseQuery.cs:53-100 | after any write of an index, reading it returns the written bytes |
| BaseQueries.AppendThenRead | Nucleus/Queries/BaseQuery.cs:90-96 | after an append, reading returns the bytes |
| BaseQueries.OverwriteThenRead | Nucleus/Queries/BaseQuery.cs:55-65 | after an equal-size write, reading returns the bytes |
| BaseQueries.MoveThenRead | Nucleus/Queries/BaseQuery.cs:66-88 | after a moving write, reading returns the bytes |
| BaseQueries.ReadLast | Nucleus/Queries/BaseQuery.cs:185-202 | the last slot reads as the buffer's last bytes |
| BaseQueries.PushedSlotOffset | Nucleus/Queries/BaseQuery.cs:87 | a pushed entry becomes last, at the offset equal to the sum of the others |
| BaseQueries.LastSlotOffset | Nucleus/Queries/BaseQuery.cs:95 | an added entry sits at the total length |
| BaseQueries.CopyPass | Nucleus/Queries/BaseQuery.cs:76-78 | one pass reads a chunk, seeks back by old length plus the bytes read (failing before 0), and writes the chunk |
| BaseQueries.CopyBack | Nucleus/Queries/BaseQuery.cs:73-80 | the do-while loop computes the specified copy |
| BaseQueries.CopyTurn | Nucleus/Queries/BaseQuery.cs:74-80 | one turn of the loop keeps the copy invariant and shrinks what is left |
| BaseQueries.CopyingThrows | Nucleus/Queries/BaseQuery.cs:77 | a seek before 0 throws |
| BaseQueries.CopyingGoesOn | Nucleus/Queries/BaseQuery.cs:76-80 | a successful pass either continues with less left or ends the copy |
| BaseQueries.SpliceSlot | Nucleus/Queries/BaseQuery.cs:55-96 | the write on the buffer and directory computes exactly the specified splice |
| BaseQueries.WriteSame | Nucleus/Queries/BaseQuery.cs:61-65 | the equal-size branch overwrites at the offset |
| BaseQueries.WriteResized | Nucleus/Queries/BaseQuery.cs:66-88 | the changed-size branch computes the specified resize, failing with an I/O error on a negative seek |
| BaseQueries.Reappend | Nucleus/Queries/BaseQuery.cs:82-87 | shrink when smaller, write the new bytes, push the entry |
| BaseQueries.ReappendedParts | Nucleus/Queries/BaseQuery.cs:82-87 | the re-append is `SetLength`, then the write at the clamped cursor, then `PushToEnd` |
| BaseQueries.CutBytes | Nucleus/Queries/BaseQuery.cs:140-157 | the removal on the stream computes the specified cut |
| BaseQueries.Shrink | Nucleus/Queries/BaseQuery.cs:156 | `SetLength(Length - oldLength)` |
| BaseQueries.ReadSlot | Nucleus/Queries/BaseQuery.cs:194-200 | reading a present slot on the stream returns the specified slot read |
| BaseQueries.ReadView | Nucleus/Queries/BaseQuery.cs:185-202 | `TryRead` returns false with an empty buffer for an absent index, and otherwise the slot read of the payload |
| BaseQueries.Absorbed | Nucleus/Queries/BaseQuery.cs:204-209 | a deserialisation changes only the cache, never the payload or directory |
| BaseQueries.CoherentFetched | Nucleus/Queries/BaseQuery.cs:204-209 | a query whose cache only holds decodes of its payload fetches the same values as one with an empty cache |
| BaseQueries.AbsorbedCoherent | Nucleus/Queries/BaseQuery.cs:204-209 | caching a fetched value keeps the cache coherent |
| BaseQueries.CutIgnoresCursor | Nucleus/Queries/BaseQuery.cs:147 | removal seeks first, so its result does not depend on the old cursor |
| BaseQueries.BaseQuery.constructor | Nucleus/Queries/BaseQuery.cs:23-32 | the query starts clean with an empty cache, subscribes to the sector and increments `Connected` |
| BaseQueries.BaseQuery.Load | Nucleus/Queries/BaseQuery.cs:18 | the buffer is the sector's loaded payload |
| BaseQueries.BaseQuery.Write | Nucleus/Queries/BaseQuery.cs:53-100 | the buffer and directory become the splice of the old ones; the query is marked changed; the sector's queries get the cache |
| BaseQueries.BaseQuery.WriteLoaded | Nucleus/Queries/BaseQuery.cs:55-99 | the same, once the buffer is loaded |
| BaseQueries.BaseQuery.Notify | Nucleus/Queries/BaseQuery.cs:98-99 | sets `changed` and broadcasts the cache through `UpdateSector` |
| BaseQueries.BaseQuery.SpliceLoaded | Nucleus/Queries/BaseQuery.cs:55-96 | the loaded buffer and directory are spliced as specified |
| BaseQueries.BaseQuery.Uncache | Nucleus/Queries/BaseQuery.cs:107 | `cache.Remove(index)` evicts one entry, and fails when the cache was dropped |
| BaseQueries.BaseQuery.Recache | Nucleus/Queries/BaseQuery.cs:122 | `cache[index] = obj` stores the value, and fails when the cache was dropped |
| BaseQueries.BaseQuery.View | Nucleus/Queries/BaseQuery.cs:185-209 | the observable state (payload, directory, cache) is well formed |
| BaseQueries.BaseQuery.TryWriteBytes | Nucleus/Queries/BaseQuery.cs:102-114 | true iff the write succeeded and the cache entry was evicted |
| BaseQueries.BaseQuery.TryWriteValue | Nucleus/Queries/BaseQuery.cs:116-129 | serialises the value, writes it, and on success caches it at the index |
| BaseQueries.BaseQuery.TryRemove | Nucleus/Queries/BaseQuery.cs:131-168 | an absent index returns true and changes nothing; otherwise the slot's bytes are cut, the entry is evicted and the query is marked changed, with the directory unchanged |
| BaseQueries.BaseQuery.RemoveBytes | Nucleus/Queries/BaseQuery.cs:140-160 | the positive-length branch of `TryRemove` |
| BaseQueries.BaseQuery.Forget | Nucleus/Queries/BaseQuery.cs:159-160 | marks the query changed and evicts the entry |
| BaseQueries.BaseQuery.RemoveSlot | Nucleus/Queries/BaseQuery.cs:131-168 | the removal seen by the façades |
| BaseQueries.BaseQuery.CutLoaded | Nucleus/Queries/BaseQuery.cs:143-156 | the loaded buffer is cut as specified |
| BaseQueries.BaseQuery.TryClear | Nucleus/Queries/BaseQuery.cs:170-183 | truncates the buffer to 0, clears the cache and marks the query changed, leaving the directory; fails when the buffer cannot load |
| BaseQueries.BaseQuery.Truncate | Nucleus/Queries/BaseQuery.cs:174 | `SetLength(0)` empties the buffer |
| BaseQueries.BaseQuery.ClearCache | Nucleus/Queries/BaseQuery.cs:218-221 | empties the cache |
| BaseQueries.BaseQuery.List | Nucleus/Queries/DictionaryQuery.cs:26 | `s.Values.Add(index, length)` appends a directory entry |
| BaseQueries.BaseQuery.TryRead | Nucleus/Queries/BaseQuery.cs:185-202 | the result is the read of the observable state, which it leaves unchanged |
| BaseQueries.BaseQuery.ReadLoaded | Nucleus/Queries/BaseQuery.cs:194-200 | a present slot reads as specified from the loaded buffer |
| BaseQueries.BaseQuery.Save | Nucleus/Queries/BaseQuery.cs:44-51 | `Update` runs only when changed, then the flag is cleared, so a second `Save` does nothing |
| BaseQueries.BaseQuery.DeserializeAs | Nucleus/Queries/BaseQuery.cs:204-216 | returns the cached value when present, otherwise decodes and caches it |
| BaseQueries.BaseQuery.ReadValue | Nucleus/Queries/BaseQuery.cs:204-209 | reading then deserialising gives the fetched value and caches it |
| BaseQueries.BaseQuery.Dispose | Nucleus/Queries/BaseQuery.cs:223-230 | saves only if `SaveOnDisposed`, then drops the cache and decrements `Connected` (releasing the buffer at 0) |
| BaseQueries.BaseQuery.Leave | Nucleus/Queries/BaseQuery.cs:228-229 | drops the cache and decrements `Connected` |
| ListQueries.Got | Nucleus/Queries/Query.cs:20-36 | the getter fails with `IndexOutOfRangeException` for -1 or index at least `Count`; other indices are read and deserialised |
| ListQueries.Gots | Nucleus/Queries/Query.cs:63-65 | one lookup per directory key |
| ListQueries.GotsAt | Nucleus/Queries/Query.cs:63-65 | lookup i is the getter on key i |
| ListQueries.ScanAllPass | Nucleus/Queries/Query.cs:61-69 | when no value matches and none throws, `IndexOf` returns -1 |
| ListQueries.ScanMisses | Nucleus/Queries/Query.cs:61-69 | a -1 result means every value was read and none was structurally equal to the item |
| ListQueries.ScanFinds | Nucleus/Queries/Query.cs:61-69 | a result other than -1 is the key of an entry whose value equals the item |
| ListQueries.ScanStops | Nucleus/Queries/Query.cs:61-69 | the scan stops at the first entry that is structurally equal to the item, or that throws |
| ListQueries.FirstMatchMeaning | Nucleus/Queries/Query.cs:61-69 | -1 iff every entry in directory order reads and none is structurally equal to the item; otherwise the key of the first that is |
| ListQueries.OutOfRangeKeyStopsScan | Nucleus/Queries/Query.cs:63-65 | a directory key of -1 or at least `Count` makes `IndexOf` throw `IndexOutOfRangeException` |
| ListQueries.GotNeedsPayload | Nucleus/Queries/Query.cs:28-30 | a value is only ever read from a present slot of a loaded buffer |
| ListQueries.Query.constructor | Nucleus/Queries/Query.cs:16 | a list query over a sector starts clean and increments `Connected` |
| ListQueries.Query.Count | Nucleus/Queries/Query.cs:13 | `Count` is the number of directory entries |
| ListQueries.Query.Get | Nucleus/Queries/Query.cs:20-36 | the getter returns the specified lookup and caches a decoded value |
| ListQueries.Query.Set | Nucleus/Queries/Query.cs:38-48 | the setter throws for -1 or index above `Count` (index equal to `Count` is allowed), and otherwise writes the value |
| ListQueries.Query.Add | Nucleus/Queries/Query.cs:51-54 | `Add` writes the item at index `Count` |
| ListQueries.Query.Insert | Nucleus/Queries/Query.cs:56-59 | `Insert` overwrites the slot at the index rather than shifting |
| ListQueries.Query.IndexOf | Nucleus/Queries/Query.cs:61-69 | returns the slot key of the first entry in directory order whose value is structurally equal to the item, or -1 |
| ListQueries.Query.Step | Nucleus/Queries/Query.cs:63-66 | one iteration of the `IndexOf` loop, matching by structural equality |
| ListQueries.Query.RemoveAt | Nucleus/Queries/Query.cs:71-74 | `RemoveAt` delegates to `TryRemove` |
| ListQueries.Query.Remove | Nucleus/Queries/Query.cs:101-108 | removes the first slot in directory order whose value is structurally equal to the item and returns `TryRemove`'s result, or false if none is |
| ListQueries.Query.RemoveFound | Nucleus/Queries/Query.cs:105 | the match found is removed with `TryRemove` |
| DictionaryQueries.Position | Nucleus/Queries/DictionaryQuery.cs:98 | `keys.IndexOf` is the first position of the key, or -1 exactly when it is absent |
| DictionaryQueries.KeysRoundTrip | Nucleus/Queries/DictionaryQuery.cs:21 | a non-empty key list without `;` reads back from slot 0 unchanged |
| DictionaryQueries.SemicolonKeySplits | Nucleus/Queries/DictionaryQuery.cs:21 | a key containing `;` reads back as two keys |
| DictionaryQueries.SlotOfUnique | Nucleus/Queries/DictionaryQuery.cs:46 | the key at list position p is stored in slot p+1 |
| DictionaryQueries.Without | Nucleus/Queries/DictionaryQuery.cs:102 | `keys.RemoveAt(p)` drops exactly position p and keeps the order of the rest |
| DictionaryQueries.RemoveShiftsSlots | Nucleus/Queries/DictionaryQuery.cs:96-109 | after a removal, the later keys map to the slots of their predecessors, not their own |
| DictionaryQueries.Looked | Nucleus/Queries/DictionaryQuery.cs:44-61 | an absent key throws `IndexOutOfRangeException`; a present key reads slot position+1 |
| DictionaryQueries.AttachedView | Nucleus/Queries/DictionaryQuery.cs:16 | a fresh query sees the sector's payload and directory with an empty cache |
| DictionaryQueries.DictionaryQuery.Attach | Nucleus/Queries/DictionaryQuery.cs:16 | the base constructor attaches a clean query with no keys |
| DictionaryQueries.DictionaryQuery.ReadKeys | Nucleus/Queries/DictionaryQuery.cs:18-27 | slot 0 split on `;` becomes the key list; with no slot 0, the list is empty and entry (0, 0) is added |
| DictionaryQueries.DictionaryQuery.Adopt | Nucleus/Queries/DictionaryQuery.cs:19-27 | the read result decides between the stored key list and a fresh one |
| DictionaryQueries.DictionaryQuery.Open | Nucleus/Queries/DictionaryQuery.cs:16-28 | the constructor reads the key list from slot 0, or starts empty and registers slot 0; a failed read throws |
| DictionaryQueries.DictionaryQuery.Count | Nucleus/Queries/DictionaryQuery.cs:30 | `Count` is the number of keys |
| DictionaryQueries.DictionaryQuery.ContainsKey | Nucleus/Queries/DictionaryQuery.cs:91-94 | true iff the key is in the list |
| DictionaryQueries.DictionaryQuery.Get | Nucleus/Queries/DictionaryQuery.cs:44-61 | the getter returns the value at slot position+1, or throws for an absent key |
| DictionaryQueries.DictionaryQuery.TryGetValue | Nucleus/Queries/DictionaryQuery.cs:111-123 | an absent key returns false (`None`) and reads nothing; a present key returns the getter's value |
| DictionaryQueries.DictionaryQuery.Set | Nucleus/Queries/DictionaryQuery.cs:63-75 | setting an absent key throws `KeyNotFoundException`; otherwise writes slot position+1 |
| DictionaryQueries.DictionaryQuery.Add | Nucleus/Queries/DictionaryQuery.cs:78-89 | an existing key has its value overwritten with the list unchanged; a new key is written to slot `Count+1`, appended, and slot 0 is rewritten |
| DictionaryQueries.DictionaryQuery.AddNew | Nucleus/Queries/DictionaryQuery.cs:84-88 | a new key is appended only if its value was written, and then slot 0 is rewritten |
| DictionaryQueries.ValueWriteKeepsList | Nucleus/Queries/DictionaryQuery.cs:84-87 | the value write of `Add` leaves slot 0, the key list, with a non-negative recorded length |
| DictionaryQueries.DictionaryQuery.StoreKeys | Nucleus/Queries/DictionaryQuery.cs:87 | slot 0 receives the keys joined by `;` |
| DictionaryQueries.DictionaryQuery.Remove | Nucleus/Queries/DictionaryQuery.cs:96-109 | an absent key returns false; a present key removes slot p+1 and drops the key from the list, without rewriting slot 0 |
| DictionaryQueries.DictionaryQuery.Drop | Nucleus/Queries/DictionaryQuery.cs:100-103 | the key leaves the list only if `TryRemove` succeeded |
| DictionaryQueries.DictionaryQuery.Clear | Nucleus/Queries/DictionaryQuery.cs:130-136 | empties the key list if `TryClear` succeeded; the buffer and cache are cleared |
| DynamicDictionaryQueries.ResolveType | Nucleus/Queries/DynamicDictionaryQuery.cs:56 | a name that resolves denotes one of the types the store serialises itself, or `object` |
| DynamicDictionaryQueries.NameRoundTrip | Nucleus/Queries/DynamicDictionaryQuery.cs:138 | every known type's name resolves back to the type and contains no `;` |
| DynamicDictionaryQueries.ArrayTagRoundTrip | Nucleus/Queries/DynamicDictionaryQuery.cs:138 | array type names resolve back to the array type |
| DynamicDictionaryQueries.IntNameRoundTrip | Nucleus/Queries/DynamicDictionaryQuery.cs:138 | integer type names (`System.Int32` and the others) resolve back |
| DynamicDictionaryQueries.ScalarNameRoundTrip | Nucleus/Queries/DynamicDictionaryQuery.cs:138 | bool, char, byte, string and TimeSpan names resolve back |
| DynamicDictionaryQueries.ArrayNameRoundTrip | Nucleus/Queries/DynamicDictionaryQuery.cs:138 | an element name followed by `[]` resolves to its array type |
| DynamicDictionaryQueries.Names | Nucleus/Queries/DynamicDictionaryQuery.cs:138 | each listed type is written by its name, and an unresolved type as the empty string |
| DynamicDictionaryQueries.TypesOf | Nucleus/Queries/DynamicDictionaryQuery.cs:56 | every type read back from slot 1 is a known type |
| DynamicDictionaryQueries.TypesRoundTrip | Nucleus/Queries/DynamicDictionaryQuery.cs:56 | a non-empty list of known types written to slot 1 reads back unchanged |
| DynamicDictionaryQueries.LookupFrom | Nucleus/Queries/DynamicDictionaryQuery.cs:69-79 | the loop returns i+2 for the first position whose key and type both match, or -1 when none does; reading past the type list throws |
| DynamicDictionaryQueries.Lookup | Nucleus/Queries/DynamicDictionaryQuery.cs:69-79 | `IndexOf` is -1 iff no position matches both key and type; otherwise slot i+2 of a position that does |
| DynamicDictionaryQueries.KeyPerType | Nucleus/Queries/DynamicDictionaryQuery.cs:69-79 | one key at two types is two entries, found at slots 2 and 3 |
| DynamicDictionaryQueries.LookupSeesPrefix | Nucleus/Queries/DynamicDictionaryQuery.cs:71-76 | a match is decided by the lists up to it |
| DynamicDictionaryQueries.RemoveKeepsPair | Nucleus/Queries/DynamicDictionaryQuery.cs:158-170 | removing list position i+2 instead of i leaves the removed pair in the lists, still found at the same slot |
| DynamicDictionaryQueries.Probed | Nucleus/Queries/DynamicDictionaryQuery.cs:81-104 | `TryGet` is false for a missing pair and otherwise the cached or decoded value; a failed slot read is false |
| DynamicDictionaryQueries.Unlisted | Nucleus/Queries/DynamicDictionaryQuery.cs:164-168 | after a successful `TryRemove`, both lists drop position index, and an out-of-range index throws |
| DynamicDictionaryQueries.DynamicDictionaryQuery.Attach | Nucleus/Queries/DynamicDictionaryQuery.cs:48 | the base constructor attaches a clean query with empty lists |
| DynamicDictionaryQueries.DynamicDictionaryQuery.ReadLists | Nucleus/Queries/DynamicDictionaryQuery.cs:50-64 | both lists come from slots 0 and 1, or start empty with entries (0, 0) and (1, 0) added |
| DynamicDictionaryQueries.DynamicDictionaryQuery.AdoptLists | Nucleus/Queries/DynamicDictionaryQuery.cs:53-64 | the two read results decide between the stored lists and fresh ones |
| DynamicDictionaryQueries.DynamicDictionaryQuery.Open | Nucleus/Queries/DynamicDictionaryQuery.cs:48-65 | the constructor reads keys from slot 0 and types from slot 1; if either is missing both lists start empty; a failed read throws |
| DynamicDictionaryQueries.DynamicDictionaryQuery.Count | Nucleus/Queries/DynamicDictionaryQuery.cs:67 | `Count` is the number of keys |
| DynamicDictionaryQueries.DynamicDictionaryQuery.IndexOf | Nucleus/Queries/DynamicDictionaryQuery.cs:69-79 | the loop returns the specified lookup: slot i+2 of the first position matching key and type |
| DynamicDictionaryQueries.DynamicDictionaryQuery.Contains | Nucleus/Queries/DynamicDictionaryQuery.cs:120-123 | true iff some position has that key and that type |
| DynamicDictionaryQueries.DynamicDictionaryQuery.TryGet | Nucleus/Queries/DynamicDictionaryQuery.cs:81-104 | looks the pair up, then reads and deserialises its slot, caching the value |
| DynamicDictionaryQueries.DynamicDictionaryQuery.Probe | Nucleus/Queries/DynamicDictionaryQuery.cs:86-103 | the read after a lookup |
| DynamicDictionaryQueries.DynamicDictionaryQuery.Get | Nucleus/Queries/DynamicDictionaryQuery.cs:106-118 | returns the value, or throws `KeyNotFoundException` when the pair is absent; a success implies the pair is listed |
| DynamicDictionaryQueries.DynamicDictionaryQuery.TryGetValue | Nucleus/Queries/DynamicDictionaryQuery.cs:142-156 | false and no value for an absent pair, else the value |
| DynamicDictionaryQueries.DynamicDictionaryQuery.Set | Nucleus/Queries/DynamicDictionaryQuery.cs:125-140 | an existing pair has its value overwritten; a new pair is written to slot `Count+2`, appended to both lists, and slots 0 and 1 are rewritten |
| DynamicDictionaryQueries.DynamicDictionaryQuery.Put | Nucleus/Queries/DynamicDictionaryQuery.cs:129-139 | the branch on the lookup result |
| DynamicDictionaryQueries.DynamicDictionaryQuery.SetExisting | Nucleus/Queries/DynamicDictionaryQuery.cs:131 | overwrites the value of an existing pair |
| DynamicDictionaryQueries.DynamicDictionaryQuery.SetNew | Nucleus/Queries/DynamicDictionaryQuery.cs:133-139 | a new pair is listed only if its value was written |
| DynamicDictionaryQueries.DynamicDictionaryQuery.EnlistPair | Nucleus/Queries/DynamicDictionaryQuery.cs:135-138 | appends key and type, then rewrites slots 0 and 1 |
| DynamicDictionaryQueries.ValueWriteKeepsLists | Nucleus/Queries/DynamicDictionaryQuery.cs:133-138 | the value write of a new pair leaves slots 0 and 1 with non-negative recorded lengths |
| DynamicDictionaryQueries.KeysWriteKeepsTypes | Nucleus/Queries/DynamicDictionaryQuery.cs:137-138 | rewriting slot 0 leaves slot 1 with a non-negative recorded length |
| DynamicDictionaryQueries.DynamicDictionaryQuery.StoreLists | Nucleus/Queries/DynamicDictionaryQuery.cs:137-138 | slots 0 and 1 receive the joined keys and type names |
| DynamicDictionaryQueries.DynamicDictionaryQuery.StoreTypes | Nucleus/Queries/DynamicDictionaryQuery.cs:138 | slot 1 receives the type names joined by `;` |
| DynamicDictionaryQueries.DynamicDictionaryQuery.Store | Nucleus/Queries/DynamicDictionaryQuery.cs:137 | writes bytes to a slot through `TryWrite` |
| DynamicDictionaryQueries.DynamicDictionaryQuery.Remove | Nucleus/Queries/DynamicDictionaryQuery.cs:158-170 | a missing pair changes nothing; a found pair's slot is removed, then both lists drop position i+2 (not i) |
| DynamicDictionaryQueries.DynamicDictionaryQuery.Clear | Nucleus/Queries/DynamicDictionaryQuery.cs:172-179 | both lists are emptied if `TryClear` succeeded, with the buffer and cache cleared |
| Connections.Connection.constructor | Nucleus/CoreConnection.cs:252-255 | the connection holds the enumerator over its stream |
| Connections.Connection.OpenQuery | Nucleus/CoreConnection.cs:292-295 | a list query opens on the `Generic` sector of the lower-cased name, failing iff the name has `;` |
| Connections.Connection.OpenDictionaryQuery | Nucleus/CoreConnection.cs:312-315 | a typed map opens on the `Generic` plus `Dictionary` sector, failing with a format error on `;` |
| Connections.Connection.OpenDynamicDictionaryQuery | Nucleus/CoreConnection.cs:302-305 | a dynamic map opens on the `Dictionary` sector, failing with a format error on `;` |

## Left out

- Floating-point, `DateTime` and `IntPtr` values and arrays (Nucleus/CoreConnection.cs:41-44, 53-56, 71-74, 81-82, 166-169, 176-177, 192-195, 200-207): floating point and opaque library conversions. `TimeSpan` is modelled as its 64-bit ticks.
- The reflection-based `PreDeserialize(bytes, Type)` and `Deserialize(bytes, Type)`: type tags are a closed datatype, so `BaseQuery.Deserialize(index, bytes, Type)` uses the same decoder as `PreDeserialize<T>`.
- The host `Serialize` / `Deserialize<T>` hooks: they are parameters of the model (a `HostCodec`). Their round-trip is not assumed.
- DynamicDictionaryQueries.ResolveType: resolves only the primitive and array types the store serialises itself, and `object`. `Type.GetType` also resolves other core-library types (`System.Decimal`, `System.SByte`, `System.Guid`, `System.DateTimeOffset`, ...), which reach the store through the host hooks. For those names the model answers `None`, so a typed read of such an entry fails with `KeyNotFound` where the source finds it.
- The `(T)o` casts after a dynamic lookup: values are one tagged `Value` type, and the tag is checked instead.
- `DictionaryQuery.DynamicQuery`: it uses `DynamicObject` dispatch.
- `DictionaryQuery.Keys`, `Values`, `CopyTo`, `Contains(KeyValuePair)`, the `KeyValuePair` overload of `Add` and `GetEnumerator`: they are enumeration plumbing over the modelled indexer. The key list itself is the `keys` field.
- `Query.Contains`, `Query.CopyTo`, `Query.Clear` and `Query.GetEnumerator`: the enumeration is the same directory-order loop as `IndexOf`, and `Clear` is `BaseQuery.TryClear`.
- `DynamicDictionaryKeyValuePair` and the lazy `DynamicDictionaryQuery.GetEnumerator`: closures and iterators.
- The one-argument factory overloads (Nucleus/CoreConnection.cs:262-285): they only pass `saveOnDisposed = true`.
- The event and delegate machinery (`SectorMoved`, `SectorChanged`, `Updated`): modelled as explicit loops over the registered sectors and queries.
- `volatile` fields and thread-safety: the model is sequential.
- Stream I/O errors other than a negative seek or length: the file and buffers are byte sequences with a cursor.
- 32-bit sector sizes: `Length` is an `int` (Nucleus/Sectors/Sector.cs:27) and the payload is read after a seek to `(int)s.Offset` (Nucleus/Sectors/SectorEnumerator.cs:101). The model uses unbounded integers and writes the 4-byte total modulo 2^32, so it describes files and sectors under 2 GiB only.
- `ToString`, `GetHashCode` and `IDisposable` on `Sector` and `SectorEnumerator`: debug output and boilerplate.
- Utf8.Decode: on ill-formed input it writes one U+FFFD for each byte that starts no valid sequence, where .NET writes one per maximal ill-formed subpart (a truncated `E2 82` gives two here and one in .NET). Well-formed input decodes as in .NET.
- Codec.StringRoundTrip: a Dafny string holds Unicode scalar values only, so lone surrogates are not modelled. .NET `GetBytes` encodes a lone surrogate as `EF BF BD`, so the round-trip covers only strings of scalar values.
- `int.Parse` is modelled for optionally signed decimal digits. Culture-specific forms and surrounding whitespace are not.
- `ToLower` is modelled on ASCII letters only.
- BaseQueries.BaseQuery.Write: requires the index's recorded length to be non-negative. With a negative length the copy loop's seek can move backwards indefinitely, and the model does not follow that.
- ListQueries.Query.Set: requires the recorded length of the written slot to be non-negative when the index is in range, as for `BaseQuery.Write`.
- ListQueries.Query.Add: requires the recorded length of slot `Count` to be non-negative, as for `BaseQuery.Write`.
- ListQueries.Query.Insert: requires the recorded length of the written slot to be non-negative when the index is in range, as for `BaseQuery.Write`.
- DictionaryQueries.DictionaryQuery.Set: requires the recorded length of each slot it writes to be non-negative, as for `BaseQuery.Write`.
- DictionaryQueries.DictionaryQuery.Add: requires the recorded length of each slot it writes to be non-negative (the key's slot, or slots `Count + 1` and 0); its `listed` result is ghost and only states whether slot 0 was rewritten.
- DynamicDictionaryQueries.DynamicDictionaryQuery.Set: requires the query's element type to be `object`, the only element type a dynamic map is opened with, and the recorded length of each slot it writes to be non-negative (the found slot, or slots `Count + 2`, 0 and 1); its `stored`, `listed0` and `listed1` results are ghost.
- ListQueries.ScanMisses: matching is structural equality of the decoded values, whereas C# `Equals` compares arrays (`short[]` to `ulong[]`, `bool[]`, `char[]`, `byte[]`) and host objects without an `Equals` override by reference, so for those the source never finds a freshly read value.
- ListQueries.ScanStops: matching is structural equality of the decoded values, whereas C# `Equals` compares arrays (`short[]` to `ulong[]`, `bool[]`, `char[]`, `byte[]`) and host objects without an `Equals` override by reference, so for those the source never finds a freshly read value.
- ListQueries.FirstMatchMeaning: matching is structural equality of the decoded values, whereas C# `Equals` compares arrays (`short[]` to `ulong[]`, `bool[]`, `char[]`, `byte[]`) and host objects without an `Equals` override by reference, so for those the source never finds a freshly read value.
- ListQueries.Query.Step: matching is structural equality of the decoded values, whereas C# `Equals` compares arrays (`short[]` to `ulong[]`, `bool[]`, `char[]`, `byte[]`) and host objects without an `Equals` override by reference, so for those the source never finds a freshly read value.
- ListQueries.Query.IndexOf: matching is structural equality of the decoded values, whereas C# `Equals` compares arrays (`short[]` to `ulong[]`, `bool[]`, `char[]`, `byte[]`) and host objects without an `Equals` override by reference, so for those the source never finds a freshly read value.
- ListQueries.Query.Remove: matching is structural equality of the decoded values, whereas C# `Equals` compares arrays (`short[]` to `ulong[]`, `bool[]`, `char[]`, `byte[]`) and host objects without an `Equals` override by reference, so for those the source never finds a freshly read value.
- ListQueries.Query.RemoveAt: its success flag is ghost, because the source discards `TryRemove`'s result.
- The slice specifications of the block-copy loops are proved for a tail of at most one block (and, in `BaseQuery`, also for an old length of 0). For longer tails the model computes what the loop does, and `Records.TailCopiedManyBlocks` shows that it differs from the slide.
