# OVATool in Dafny

OVATool turns VMware virtual machines into OVA archives: it reads flat, sparse or split disks, cuts them into chunks,
compresses the chunks in parallel, stores them in a streamOptimized VMDK, and packs the disks, an OVF descriptor and a
manifest into a ustar archive. This project models that path in Dafny and proves what it promises end to end.

Layout, from the bytes up:

- `Bytes`, `Results`, `Text`: little-endian words, padding, cutting text into lines, decimal and hexadecimal numbers, trimming.
- `StreamVmdk`, `StreamWriter`, `StreamScan`: the image as a function of the history of writes; the writer as a class
  that reaches it; a one-pass parser that inverts it.
- `SparseReader`, `SparseChunks`, `StreamIndex`, `Readback`: the sparse reader, its chunk iterator, and the agreement
  of the two-level index with the simple map "grain index -> last write". `HostedSparse`, `HostedLayout`: files that lay
  out a disk without compression, and that they read as that disk.
- `Chunking`, `FlatReader`, `SplitExtents`, `Pipeline`, `ExportedDisk`, `RoundTrip`, `Export`: canonical chunkings, the
  carry loop over split extents, the parallel pipeline as a step system, and the export of whole disks.
- `Tar`, `TarWalk`, `SizeField`, `Ova`, `ManifestText`, `OvaRoundTrip`: headers, buffered and streaming writers, archive walker.
- `Xml`, `XmlReader`, `XmlWriter`: escaping, a strict reader, generated lines and exactly when the two agree.
- `OvfNames`, `GuestOs`, `Ovf`, `OvfDocument`, `OvfIds`, `OvfReferences`, `OvfNetworks`, `ExportVm`: the descriptor as a
  document, its builders, and the references inside it and into the archive. `OvfVocabulary`, `OvfOutline`, `OvfItems`:
  the same document as a template of plain words, and what its items ask for. `MachineExport`: from source disks to archive.
- `StableSort`, `Vmx`: extraction of disks and adapters from an unordered map.
- `Descriptor`, `ExtentText`, `DescriptorText`: the text descriptor of a disk.

`dafny verify dfyconfig.toml` checks everything.

## Reading the model

- Files are byte sequences. Casts to 32 and 64 bits are written out; other integers are unbounded.
- DEFLATE is a pair of functions (`Codec`). Theorems that need it assume only that inflating what was compressed gives
  it back and that compressed data is not empty; `LosslessCodecExists` gives an instance. SHA-256 is any function of
  the bytes. The modification time, the UTF-8 encoding of names and the test whether bytes are text are parameters.
- The iteration order of a hash map is a parameter, quantified over in the theorems about it.
- A pipeline worker takes one step to process and count a chunk and another to hand it in; any enabled step may come next.
- Descriptor properties are stated on what `ReadXml` makes of the whole text: it requires the prolog, one root
  element with matching tags, quoted attributes without repetition, and characters of XML 1.0 (section 2.2); it rejects
  `<` in values, `]]>` in text and every ampersand that opens none of the five predefined entities; it turns carriage
  returns into line feeds (section 2.11), shows white space in attributes as blanks (section 3.3.3), and keeps all text.
- What is meant by a string is the string itself, between tags as well as between quotes.
- Integer overflow in the sparse reader is an error of its own (`Overflow`): a build with overflow checks panics there.
- The reader refuses files with markers. `FooterReader` is its directory load applied to the footer of such a file.

## Where a promise does not hold as stated

- Each processing chunk is stored as one grain, while the header announces 64 KiB grains. Reading the image through its
  tables is therefore faithful only under the exact condition of `RoundTrip.ReadbackExactly`; the stream-order form
  `RoundTrip.StreamOrderPreserved` holds for every chunk size.
- Sector numbers are cast to 32 bits in tables and directory (`StreamIndex.EntriesExactIff`, `StreamIndex.WrappedTableLost`,
  `StreamIndex.HugeGrainLost`).
- The payload size field has 32 bits (`StreamIndex.PayloadSurvives`), and a payload of length zero reads as metadata
  (`StreamScan.ScanInvertsWriter`).
- Archive names beyond 99 bytes are cut (`TarWalk.NameSeenIff`); a newline in a name breaks the manifest
  (`ManifestText.ManifestParsesIff`).
- The two settings `scsi0:0.fileName` and `scsi0:00.fileName` compete for one slot, so the disk order then depends on
  the hash map (`Vmx.DisksOrderIndependentIff`, `Vmx.ClashExample`).
- Adapter ids are counted from the number of configured disks, disk ids from the disks written
  (`OvfIds.InstanceIdsDistinctIff`). An export writes as many as are configured.
- File names enter the References section unescaped, so names such as R&D.vmdk spoil the descriptor
  (`OvfDocument.DocumentReadsIff`, `OvfDocument.AmpersandNameFails`, `ExportVm.ExportReadsIff`).
- Escaping passes control characters, carriage returns and, in network names, tabs through, so these spoil it as well
  (`OvfDocument.DocumentReadsIff`, `OvfDocument.ControlNameFails`).
- Adapters that share a network describe it once each, so their connections lead to several (`OvfNetworks.ConnectedIff`).
- After a streamed file is closed too early, the member added next cannot be found; the walk goes on with a later one if
  and only if its header happens to lie just behind the announced size (`OvaRoundTrip.LaterMemberFoundIff`,
  `OvaRoundTrip.LostAndFound`).
- Runs of white space inside a quoted extent name become single spaces (`DescriptorText.DescriptorRoundTripIff`).

## Model

| member | source | states |
|---|---|---|
| `StreamVmdk.HeaderLayout` | crates/ovatool-core/src/vmdk/stream.rs:186-243 | Every header field sits at its documented offset in little-endian form, and the other 433 bytes are zero. |
| `StreamVmdk.SerializeHeader` | crates/ovatool-core/src/vmdk/stream.rs:186-243 | Filling a zeroed sector field by field yields exactly that packed layout. |
| `StreamVmdk.NewHeaderShows` | crates/ovatool-core/src/vmdk/stream.rs:164-259 | The header of a new image, and its footer form, byte by byte: magic KDMV, version 3, flags 0x30001, grains of 128 sectors, 512 table entries, compression 1, and only the directory offset differs. |
| `StreamVmdk.MarkersShow` | crates/ovatool-core/src/vmdk/stream.rs:48-100 | Marker codes 1, 2 and 3 for table, directory and footer sit at byte 12 behind the sector count and an empty payload; the end marker is all zeros. |
| `StreamWriter.StreamVmdkWriter.constructor` | crates/ovatool-core/src/vmdk/stream.rs:320-338 | A new writer has emitted one header sector and nothing else; its bytes are those of `StreamVmdk.NewHeaderShows`. |
| `StreamWriter.StreamVmdkWriter.WriteGrain` | crates/ovatool-core/src/vmdk/stream.rs:350-385 | Appends one (lba, payload) pair to the history. The invariant it keeps: position = bytes emitted, a multiple of 512; output = header + the records of the history; the offset map sends each grain index to the sector of its last record. |
| `StreamWriter.StreamVmdkWriter.BuildEntries` | crates/ovatool-core/src/vmdk/stream.rs:402-412 | Looking up each of the 512 slots of a table gives the recorded sector, zero where nothing was written. |
| `StreamWriter.StreamVmdkWriter.WriteTable` | crates/ovatool-core/src/vmdk/stream.rs:402-448 | A table without entries takes no space and gets directory entry 0; any other table adds marker + 2048 bytes and gets the sector after its marker. |
| `StreamWriter.StreamVmdkWriter.WriteDirectory` | crates/ovatool-core/src/vmdk/stream.rs:450-475 | Marker and padded directory words, placed at the returned sector. |
| `StreamWriter.StreamVmdkWriter.WriteTrailer` | crates/ovatool-core/src/vmdk/stream.rs:477-495 | Footer marker, footer and end-of-stream marker; the position counter does not count the last one. |
| `StreamWriter.StreamVmdkWriter.Finish` | crates/ovatool-core/src/vmdk/stream.rs:394-503 | The finished file is `Image` of the capacity and the write history, for every history. |
| `SparseReader.LoadDirectory` | crates/ovatool-core/src/vmdk/sparse.rs:145-172 | The push loop loads exactly the announced directory words, or reports the bounds error or a 64-bit overflow of the place, the number of entries or the capacity. |
| `StreamIndex.OpenIff` | crates/ovatool-core/src/vmdk/sparse.rs:122-173 | Opening a file that starts with a header succeeds if and only if the magic is 0x564D444B, the version at most 3, the marker bit clear, grain and table sizes not zero, every number computed from the header below 2^64, and the directory inside the file; the reader then has the fields of that header. |
| `StreamIndex.OpenFails` | crates/ovatool-core/src/vmdk/sparse.rs:122-173 | Otherwise the first of these tests that fails decides the error. |
| `StreamIndex.ShortFile` | crates/ovatool-core/src/vmdk/sparse.rs:50-57 | A file is told to be too short for a header if and only if it has less than 512 bytes. |
| `HostedSparse.PlainGrain` | crates/ovatool-core/src/vmdk/sparse.rs:188-242 | Without compression, a grain is zeros if its directory word or its table word is zero, and otherwise the bytes at the sector given by the table; words and bytes outside the file are errors of their own. |
| `HostedSparse.CompressedGrain` | crates/ovatool-core/src/vmdk/sparse.rs:206-276 | With compression, it is the front of what the announced bytes behind the twelve-byte marker inflate to; each way to fail has its own error. |
| `HostedSparse.LaidOutReads` | crates/ovatool-core/src/vmdk/sparse.rs:122-242 | Any file that lays out a disk behind a valid header, in any grain and table sizes and in any order, with zero grains left out or stored, opens and reads as that disk. |
| `HostedSparse.CollectHosted` | crates/ovatool-core/src/vmdk/sparse.rs:289-354 | Opening such a file and draining the iterator gives the canonical chunks of the disk, for every chunk size. |
| `HostedLayout.LayoutReads` | crates/ovatool-core/src/vmdk/sparse.rs:122-242 | Every disk of whole sectors, laid out as directory, tables and grains with any sizes for which 32-bit sector numbers suffice, is such a file. |
| `StreamIndex.OpenLoads` | crates/ovatool-core/src/vmdk/sparse.rs:145-172 | The directory of an opened file is the one stored at the announced place, word for word. |
| `StreamIndex.HeaderCodec` | crates/ovatool-core/src/vmdk/sparse.rs:50-93 | Parsing any written header, with anything after it, recovers every kept field; a foreign magic is reported with its value. |
| `StreamIndex.Tiling` | crates/ovatool-core/src/vmdk/stream.rs:320-503 | The finished file is its regions in order with nothing between them: header, records, tables, directory behind its marker, footer behind its marker, end marker. |
| `StreamIndex.Regions` | crates/ovatool-core/src/vmdk/stream.rs:320-503 | Each region lies where the index says: header at 0, records at 512, tables after them, directory words at the footer's sector, footer marker and footer in the last three sectors. |
| `StreamIndex.ImageShows` | crates/ovatool-core/src/vmdk/stream.rs:164-503 | In every finished image these bytes are where a reader looks for them: the header at the start with the directory announced at the end, the footer with the true directory sector 1024 bytes before the end, and the three markers. |
| `StreamIndex.RecordsHeld` | crates/ovatool-core/src/vmdk/stream.rs:350-385 | An index is in the offset map iff it was written, and the remembered sector holds the record of its last write. |
| `StreamIndex.TablesHeld` | crates/ovatool-core/src/vmdk/stream.rs:402-448 | Each directory entry is 0 for an empty table and otherwise the sector where the words of that table lie. |
| `StreamIndex.FooterOpens` | crates/ovatool-core/src/vmdk/sparse.rs:106-163 | On the footer of every finished image of less than 2^64 bytes the directory bounds check passes, `num_gd_entries` equals the number of tables written, and the loaded words are the table sectors cast to 32 bits. |
| `StreamIndex.OpenRejectsMarkers` | crates/ovatool-core/src/vmdk/sparse.rs:138-143 | `open` itself turns every finished image away because of the marker flag. |
| `StreamIndex.PayloadSurvives` | crates/ovatool-core/src/vmdk/stream.rs:350-385 | A stored record reads back as written if and only if its payload is shorter than 2^32 bytes. |
| `StreamIndex.EntriesExactIff` | crates/ovatool-core/src/vmdk/stream.rs:402-475 | A table entry read back is the recorded sector, and a directory entry the sector of its table, if and only if the number is below 2^32. |
| `StreamIndex.WrappedTableLost` | crates/ovatool-core/src/vmdk/stream.rs:450-475 | A table at a multiple of 2^32 sectors is lost: its grains read as unallocated. |
| `StreamIndex.HugeGrainLost` | crates/ovatool-core/src/vmdk/stream.rs:350-475 | One grain of 2^41 - 1036 compressed bytes puts its table into sector 2^32, and the grain, although written, reads as unallocated. |
| `StreamIndex.LookupAgrees` | crates/ovatool-core/src/vmdk/sparse.rs:188-242 | For an index whose sector and table fit 32 bits, the two-level lookup returns the remembered sector, and 0 for an index never written or beyond the tables. |
| `StreamIndex.IndexAgreesWithMap` | crates/ovatool-core/src/vmdk/stream.rs:350-503 | Footer -> directory -> table -> marker yields, for every index, exactly the last (lba, payload) written to it, and "unallocated" otherwise, for every capacity and every history, where the sectors involved and that payload length fit 32 bits. |
| `StreamIndex.SmallImageFits` | crates/ovatool-core/src/vmdk/stream.rs:394-503 | A check a caller can make on the output: an image of at most 2 TiB has an index that fits. |
| `StreamScan.ScanInvertsWriter` | crates/ovatool-core/src/vmdk/stream.rs:350-503 | A one-pass parser recovers the header, all written grains in order, the non-empty tables, the directory and the footer and consumes every byte, if and only if every payload is non-empty and shorter than 2^32. |
| `StreamScan.ScanMisreads` | crates/ovatool-core/src/vmdk/stream.rs:81-120 | An empty or oversized payload never scans as itself. |
| `StreamScan.ImageSectors` | crates/ovatool-core/src/vmdk/stream.rs:320-503 | Closed form of the file size: header, records, five sectors per non-empty table, directory with marker, three closing sectors. |
| `Chunking.CountBounds` | crates/ovatool-core/src/vmdk/reader.rs:155-162 | `count_chunks` is the least number of chunks that covers the file. |
| `Chunking.ChunksAreChunking` | crates/ovatool-core/src/vmdk/reader.rs:155-185 | The canonical slices join to the file; all but the last are full, the last is non-empty. |
| `Chunking.ChunkingUnique` | crates/ovatool-core/src/vmdk/reader.rs:155-185 | They are the only list with that property. |
| `FlatReader.ChunkIterator.Next` | crates/ovatool-core/src/vmdk/reader.rs:168-185 | Call i yields canonical chunk i; after the last one every call yields nothing and moves nothing. |
| `FlatReader.IndexedChunkIterator.Next` | crates/ovatool-core/src/vmdk/reader.rs:247-272 | Chunks carry their own index and exactly the final one is marked last. |
| `FlatReader.CollectChunks` | crates/ovatool-core/src/vmdk/reader.rs:142-185 | Draining the iterator gives the canonical chunking. |
| `SparseChunks.NeverBeyondDirectory` | crates/ovatool-core/src/vmdk/sparse.rs:188-200 | A position below the capacity never reaches the "beyond grain directory" branch of an opened reader. |
| `SparseChunks.RangeIsGrains` | crates/ovatool-core/src/vmdk/sparse.rs:318-353 | Every byte below the capacity is readable iff every grain is. |
| `SparseChunks.SparseChunkIterator.Next` | crates/ovatool-core/src/vmdk/sparse.rs:318-353 | A call yields the bytes p -> grain(p / gs)[p % gs] of the next range, or the error of the first unreadable grain without moving. |
| `SparseChunks.CollectChunks` | crates/ovatool-core/src/vmdk/sparse.rs:289-354 | Chunks are the canonical chunking of the virtual disk for every chunk size, or the error of the first unreadable grain. |
| `SplitExtents.Feed` | crates/ovatool-core/src/export.rs:624-638 | Each branch of the carry loop keeps: chunks emitted + carry = bytes consumed, all chunks full, carry shorter than a chunk. |
| `SplitExtents.CarryFinishes` | crates/ovatool-core/src/export.rs:642-645 | Emitting the rest at the end gives the canonical chunking of everything consumed. |
| `SplitExtents.RechunkExtents` | crates/ovatool-core/src/export.rs:611-645 | For any extents and sizes the result is the canonical chunking of the concatenated disks, independent of the extent boundaries; it fails iff an extent does not read, with the error of the first that fails. |
| `Pipeline.ProgressTracker.Update` | crates/ovatool-core/src/pipeline.rs:129-134 | One locked update adds one chunk and both byte counts and touches no total. |
| `Pipeline.StepInv` | crates/ovatool-core/src/pipeline.rs:198-272 | Every step of every interleaving keeps: results hold exactly the processor output of collected chunks, counters are the tally of processed chunks, a recorded error belongs to a failed chunk. |
| `Pipeline.RunInv` | crates/ovatool-core/src/pipeline.rs:198-272 | So does every run. |
| `Pipeline.ContiguousValues` | crates/ovatool-core/src/pipeline.rs:213-223 | Values of an ordered map with keys lo..hi-1 come out by position. |
| `Pipeline.Confluence` | crates/ovatool-core/src/pipeline.rs:198-272 | Every complete run, whatever the interleaving, returns map(processor) in input order with the full tally when no chunk fails, and the error of a failing chunk otherwise. |
| `Pipeline.TallySums` | crates/ovatool-core/src/pipeline.rs:236-272 | The final counters are the exact sums of input and output bytes. |
| `Pipeline.ProcessWithProgress` | crates/ovatool-core/src/pipeline.rs:236-272 | An arbitrary scheduler run to completion has that outcome and leaves that tally in the tracker. |
| `Pipeline.Process` | crates/ovatool-core/src/pipeline.rs:198-231 | The same without a caller-supplied tracker. |
| `ExportedDisk.LosslessCodecExists` | crates/ovatool-core/src/vmdk/stream.rs:263-271 | The assumptions made about compression can be met. |
| `Export.WriteImage` | crates/ovatool-core/src/export.rs:505-537 | The image stores payload i at LBA i*chunk_size/512; the running byte count ends at the total although its last step may wrap, and whether it does (where a build with overflow checks panics) is decided by total < start of the last chunk. |
| `Export.CompressAll` | crates/ovatool-core/src/export.rs:500-503 | The parallel compression equals the sequential one. |
| `Export.ProcessDisk` | crates/ovatool-core/src/export.rs:482-538 | Image of a flat file: its canonical chunks, compressed, one grain record each. With a lossless codec it holds the file in stream order when payloads are below 2^32 bytes, and an aligned file reads back through the tables when the index fits. |
| `Export.ProcessSparseDisk` | crates/ovatool-core/src/export.rs:541-597 | The image the flat disk behind the sparse file would give, with the same preservation of content, or the error of the first unreadable grain. |
| `Export.ProcessSplitDisk` | crates/ovatool-core/src/export.rs:601-686 | The image the concatenated disks would give, for any extent boundaries and any announced capacity, with the same preservation of content; it fails iff an extent does not read, with the error of the first that fails. |
| `Readback.ImageGrain` | crates/ovatool-core/src/vmdk/sparse.rs:188-276 | Reading a grain through footer, directory and table gives the first 64 KiB of the inflated last payload, a failure when that is too short, zeros when nothing was written. |
| `Readback.ReadsBackBytes` | crates/ovatool-core/src/vmdk/sparse.rs:188-276 | A disk reads back iff it has the capacity and every byte matches the content of its grain. |
| `RoundTrip.GrainsIncreaseIff` | crates/ovatool-core/src/export.rs:512-518 | No table entry is overwritten if and only if chunk_size >= 65536 or there is at most one chunk. |
| `RoundTrip.StreamOrderPreserved` | crates/ovatool-core/src/export.rs:501-518 | For every chunk size, the payloads in stream order inflate and join to the source disk, and marker i carries LBA i*chunk_size/512. |
| `RoundTrip.ReadbackWhenAligned` | crates/ovatool-core/src/export.rs:482-597 | An aligned export read through its tables is the source disk, byte for byte. |
| `RoundTrip.UnfilledGrainMisreads` | crates/ovatool-core/src/export.rs:512-518 | Where no chunk fills a grain, a disk with one non-zero byte at its start is not read back. |
| `RoundTrip.ReadbackExactly` | crates/ovatool-core/src/export.rs:482-597 | All disks of a capacity read back through the tables if and only if the capacity is a multiple of 65536 and chunk_size is 65536, or larger with a single-grain disk (or the disk is empty). |
| `RoundTrip.FitsWhenBounded` | crates/ovatool-core/src/vmdk/stream.rs:350-503 | A bound on compressed chunk sizes and on the resulting sector count, known before any export, makes the index fit. |
| `RoundTrip.ReadbackExactlyBounded` | crates/ovatool-core/src/export.rs:482-597 | The same if-and-only-if from those bounds alone. |
| `RoundTrip.GigabyteReadsBack` | crates/ovatool-core/src/export.rs:482-538 | An instance: every 1 GiB disk stored in grain-sized chunks reads back. |
| `Tar.OctalRoundTrip` | crates/ovatool-core/src/ova.rs:157-212 | A number below 8^w is recovered from its w octal digits. |
| `Tar.OctalLeading` | crates/ovatool-core/src/ova.rs:157-212 | The first of w + 1 octal digits counts 8^w. |
| `Tar.SumAdds` | crates/ovatool-core/src/ova.rs:206-209 | The byte sum of a single byte is that byte, and sums of parts add. |
| `Tar.SumIsByValue` | crates/ovatool-core/src/ova.rs:206-209 | It equals the sum over all values of value times number of occurrences. |
| `Tar.HeaderFields` | crates/ovatool-core/src/ova.rs:157-212 | Every ustar field sits at its offset with the text the format wants (mode 0000644, ids 0, type 0, ustar 00, root), and the rest is zero. |
| `Tar.HeaderSelfCheck` | crates/ovatool-core/src/ova.rs:157-212 | The stored checksum is, counted value by value, the sum of the block with that field as spaces, in six octal digits followed by NUL and space; the size field decodes to the size; the block is never all zero. For every name. |
| `Tar.CreateTarHeader` | crates/ovatool-core/src/ova.rs:157-212 | Building the block in place, checksum last, reaches that header. |
| `TarWalk.NameSeenIff` | crates/ovatool-core/src/ova.rs:633-661 | A name is seen unchanged iff it has at most 99 bytes and no NUL. |
| `TarWalk.WalkSeesAll` | crates/ovatool-core/src/ova.rs:633-661 | On an archive that walks to its end, the members seen are all members. |
| `TarWalk.FindFile` | crates/ovatool-core/src/ova.rs:633-661 | On any data the loop returns the position of the first member with that name among those it gets to see before it ends or fails, and nothing exactly when none of them has it; size fields are trimmed of Unicode white space in UTF-8. |
| `SizeField.ParsesIffSaid` | crates/ovatool-core/src/ova.rs:652-654 | A size field is read as n if and only if it is octal digits of n, perhaps after a plus sign, with white space (in UTF-8) and then NULs around it. |
| `Ova.HexRoundTrip` | crates/ovatool-core/src/ova.rs:41-43 | Hex text determines the bytes. |
| `Ova.HexDigits` | crates/ovatool-core/src/ova.rs:41-43 | Byte i takes digits 2i and 2i + 1, the upper half first, in lower case. |
| `Ova.OvaWriter.AddFile` | crates/ovatool-core/src/ova.rs:258-292 | Header, data, padding and one manifest entry are added; the position advances by their length. |
| `Ova.OvaWriter.GenerateManifest` | crates/ovatool-core/src/ova.rs:369-374 | One line per entry in order. |
| `Ova.OvaWriter.Finish` | crates/ovatool-core/src/ova.rs:333-366 | A manifest member is added iff there are entries, then two zero blocks. |
| `Ova.OvaWriter.AddFileStreaming` | crates/ovatool-core/src/ova.rs:308-323 | Only the header for the announced size is written. |
| `Ova.StreamingFileWriter.Write` | crates/ovatool-core/src/ova.rs:435-451 | Refused iff it would exceed the announced size; otherwise exactly the bytes the inner writer took are hashed and counted. |
| `Ova.StreamingFileWriter.Finish` | crates/ovatool-core/src/ova.rs:399-431 | Succeeds iff exactly the announced number of bytes went through; on failure nothing changes. |
| `Ova.StreamInvariant` | crates/ovatool-core/src/ova.rs:399-451 | After any writes, short or refused, the archive gained exactly the hashed bytes and never more than announced. |
| `Ova.StreamingRefinesBuffered` | crates/ovatool-core/src/ova.rs:258-323 | For every list of writes, closing succeeds iff the announced size went through, and then output, position and manifest entry equal those of one `add_file` on those bytes. |
| `Ova.WholeWrites` | crates/ovatool-core/src/ova.rs:435-451 | Without short writes any split of the data goes through completely and in order. |
| `ManifestText.ManifestParsesIff` | crates/ovatool-core/src/ova.rs:369-374 | The manifest parses back to its entries in order iff no name contains a newline. |
| `ManifestText.ManifestReads` | crates/ovatool-core/src/ova.rs:369-374 | Line i of the manifest is SHA256(name)= hash of entry i. |
| `OvaRoundTrip.AfterCalls` | crates/ovatool-core/src/ova.rs:258-292 | After any calls the output is the members in order, the position is its length, entry i has name i and a text that decodes to the hash of data i. |
| `OvaRoundTrip.WalkFrom` | crates/ovatool-core/src/ova.rs:633-661 | From any member on, the walker lists the remaining members and stops at the zero blocks. |
| `OvaRoundTrip.ArchiveRoundTrip` | crates/ovatool-core/src/ova.rs:157-374 | Walking any finished archive recovers all names (as far as visible), sizes, places and contents in order, and stops exactly at the two zero blocks. |
| `OvaRoundTrip.ManifestRoundTrip` | crates/ovatool-core/src/ova.rs:333-374 | With at least one file the last member is manifest.mf, and it parses to the names of the files and texts that decode to their hashes iff no name contains a newline. |
| `OvaRoundTrip.FailedFinish` | crates/ovatool-core/src/ova.rs:399-431 | A stream closed too early leaves header and bytes behind, adds no entry, and the position lags by exactly those bytes; members added afterwards follow without a gap, while the walker goes on behind the announced size. |
| `OvaRoundTrip.LaterMemberFoundIff` | crates/ovatool-core/src/ova.rs:399-431 | A later member with its header before that place is never listed, so the first one never is; the walk finds a later member next if and only if its header lies exactly in that place. |
| `OvaRoundTrip.LostAndFound` | crates/ovatool-core/src/ova.rs:399-431 | With 1024 bytes announced and none written, a member of 512 bytes is lost and the one after it is listed. |
| `Xml.PassesAreSimultaneous` | crates/ovatool-core/src/ovf.rs:443-449 | Five successive replacement passes equal one simultaneous per-character escape. |
| `Xml.Entities` | crates/ovatool-core/src/ovf.rs:443-449 | The escapes of the five characters, written out. |
| `Xml.UnescapeInverts` | crates/ovatool-core/src/ovf.rs:443-449 | Decoding inverts it on every string of XML characters, and no other string has an escape that decodes. |
| `Xml.OnlyEscapesDecode` | crates/ovatool-core/src/ovf.rs:443-449 | Text without raw `>`, quote or apostrophe that decodes is the escape of what it decodes to. |
| `Xml.NoRawSpecials` | crates/ovatool-core/src/ovf.rs:443-449 | No raw angle bracket, quote or apostrophe remains. |
| `Xml.DecodeEscaped` | crates/ovatool-core/src/ovf.rs:443-449 | A reader that rejects `<`, bare ampersands and characters outside XML 1.0 reads escaped text as itself, in front of anything readable, if and only if all its characters are legal. |
| `Xml.VerbatimReads` | crates/ovatool-core/src/ovf.rs:83-101 | An unescaped attribute value reads as itself if and only if it has no quote, `<`, `&`, tab, line end or character outside XML 1.0. |
| `Xml.AmpersandUnreadable` | crates/ovatool-core/src/ovf.rs:83-101 | A value starting with R&D, put in unescaped, cannot be read at all. |
| `Xml.EntityMisread` | crates/ovatool-core/src/ovf.rs:83-101 | An entity inside an unescaped name is read as another name. |
| `XmlReader.IllegalUnreadable` | crates/ovatool-core/src/ovf.rs:443-449 | A text with a character outside XML 1.0 anywhere is not read at all. |
| `XmlWriter.LinesExact` | crates/ovatool-core/src/ovf.rs:43-69 | Generated lines are tokenised as meant by a strict XML reader, white space included, if and only if verbatim attribute values are plain, escaped attribute values have only legal characters and no white space but blanks, and escaped text only legal characters and no carriage return. |
| `Ovf.BuildReferences` | crates/ovatool-core/src/ovf.rs:83-101 | One File row per disk, in order, inside its section. |
| `Ovf.BuildDiskSection` | crates/ovatool-core/src/ovf.rs:104-118 | One Disk row per disk, in order, inside its section. |
| `Ovf.BuildNetworkSection` | crates/ovatool-core/src/ovf.rs:121-151 | One block per network, or the default one. |
| `Ovf.BuildHardwareSection` | crates/ovatool-core/src/ovf.rs:197-231 | The appending loops produce system, CPU, memory, controller, one item per disk, then one per adapter or the default adapter; `OvfOutline.DocumentSays` and `OvfItems.HardwareMeans` say what is in them. |
| `Ovf.BuildVirtualSystem` | crates/ovatool-core/src/ovf.rs:154-176 | Head, operating system and hardware in one element. |
| `Ovf.SanitizedId` | crates/ovatool-core/src/ovf.rs:454-465 | In a machine id exactly letters, digits, underscores and dashes stay, anything else becomes an underscore, and ids stay as they are. |
| `Ovf.Build` | crates/ovatool-core/src/ovf.rs:43-69 | The whole document: prolog, envelope, references, disks, networks, machine, closing tag. |
| `OvfDocument.DocumentSound` | crates/ovatool-core/src/ovf.rs:43-69 | The tokens meant are one properly nested root element between white space, and the lines are all readable if and only if every string that enters is fit for its place. |
| `OvfDocument.DocumentReadsIff` | crates/ovatool-core/src/ovf.rs:43-385 | A strict XML reader sees exactly the document that was meant if and only if file names and references are plain, disk ids and network names are fit for attributes, and display, guest and device names are fit for text (exact conditions on every string that enters). |
| `OvfDocument.AmpersandNameFails` | crates/ovatool-core/src/ovf.rs:83-101 | A disk called R&D.vmdk spoils the descriptor. |
| `OvfDocument.IllegalNameUnreadable` | crates/ovatool-core/src/ovf.rs:154-172 | A display name with a character outside XML 1.0 makes the descriptor unreadable altogether: escaping lets it through. |
| `OvfDocument.ControlNameFails` | crates/ovatool-core/src/ovf.rs:154-172 | For instance a display name with U+0001. |
| `OvfOutline.DocumentSays` | crates/ovatool-core/src/ovf.rs:43-457 | What the document means, token by token, is a template of plain names and words: every tag, attribute, text and indentation of every section, with each configured value in its place. |
| `OvfItems.ItemsOfDocument` | crates/ovatool-core/src/ovf.rs:197-385 | The items read from the whole document, each with its elements and texts in order, are those of the template. |
| `OvfItems.HardwareMeans` | crates/ovatool-core/src/ovf.rs:197-385 | Exactly two of them ask for a quantity: the one of type 3 for the configured processors, the one of type 4 for the configured memory. Every disk item has type 17, its position, its image and the controller as parent, whose id it gives; every adapter has type 10, its device and its network. |
| `GuestOs.CaseDoesNotMatter` | crates/ovatool-core/src/ovf.rs:393-440 | Guest names that differ only in case mean the same system. |
| `GuestOs.KnownGuests` | crates/ovatool-core/src/ovf.rs:393-440 | The documented examples, in any case. |
| `OvfIds.DocumentShows` | crates/ovatool-core/src/ovf.rs:43-385 | Looking for an id, host resource or connection in the whole document yields exactly what the hardware items show, in order, whatever names the configuration holds. |
| `OvfIds.InstanceIdsDistinctIff` | crates/ovatool-core/src/ovf.rs:297-385 | The ids in the document by position, and: all are pairwise distinct if and only if no more disks are written than configured. |
| `OvfIds.HostResources` | crates/ovatool-core/src/ovf.rs:297-323 | The i-th `rasd:HostResource` in the document is ovf:/disk/ and the i-th disk id. |
| `OvfReferences.FilesSay` | crates/ovatool-core/src/ovf.rs:83-101 | The document holds one File per disk; the i-th gives name, reference and size of the i-th disk. |
| `OvfReferences.DisksSay` | crates/ovatool-core/src/ovf.rs:104-118 | It holds one Disk per disk; the i-th gives capacity, id and reference of the i-th disk. |
| `OvfIds.Connections` | crates/ovatool-core/src/ovf.rs:326-385 | The connections in the document are the networks of the adapters, in order, with the default filled in. |
| `OvfNetworks.NetworksSay` | crates/ovatool-core/src/ovf.rs:121-148 | So are the names of the described networks. |
| `OvfNetworks.ConnectedIff` | crates/ovatool-core/src/ovf.rs:121-148 | Each adapter leads to exactly one Network element if and only if the networks, with the default filled in, are pairwise distinct. |
| `OvfNetworks.ConnectionIntegrity` | crates/ovatool-core/src/ovf.rs:43-385 | The same of what an XML reader finds in the whole descriptor text. |
| `OvfNetworks.SharedDefault` | crates/ovatool-core/src/ovf.rs:121-148 | Two adapters without a network name make two equal networks. |
| `ExportVm.DescribeDisks` | crates/ovatool-core/src/export.rs:433-444 | Disk i is described as vmdisk(i+1) / file(i+1) with size still 0. |
| `ExportVm.WriteArchive` | crates/ovatool-core/src/export.rs:447-471 | Disks are added first with their sizes filled in, then the document built from them, then the archive is finished. |
| `ExportVm.ExportReadsIff` | crates/ovatool-core/src/export.rs:433-464 | The descriptor of an export is read as meant if and only if every file name is plain, every network name fit for an attribute, and display, guest and device names fit for text. |
| `ExportVm.MeantIsLinked` | crates/ovatool-core/src/ovf.rs:83-385 | For every export, in the document that is meant all instance ids differ, each disk item names exactly one Disk, each Disk exactly one File; Disk i is vmdisk(i+1) with capacity i, File i is file(i+1) with name i and the size of image i. |
| `ExportVm.ReferenceIntegrity` | crates/ovatool-core/src/ovf.rs:43-385 | For such a configuration the same holds of what an XML reader finds in the whole descriptor text. |
| `ExportVm.RowsMatchMembers` | crates/ovatool-core/src/export.rs:447-471 | Walking the finished archive lists the disks, then the descriptor; read from the archive, the descriptor has those properties, its i-th File names the i-th member with its size, and that member holds the i-th image. |
| `MachineExport.ConvertDisk` | crates/ovatool-core/src/export.rs:393-431 | A flat, sparse or split source becomes the image of its disk; it fails exactly when the source does not read. |
| `MachineExport.ArchiveHoldsDisks` | crates/ovatool-core/src/export.rs:334-471 | Walking the finished archive finds every source disk again: member i, scanned in stream order or, when aligned, read through its tables, is disk i. |
| `MachineExport.ExportMachine` | crates/ovatool-core/src/export.rs:334-471 | The export fails exactly when some source does not read; otherwise its archive is the finished one and holds every source disk in that sense. |
| `Vmx.ExtractDisks` | crates/ovatool-core/src/vmx.rs:152-215 | For any iteration order of the hash map: a disk is listed if and only if the settings announce it (a name ending in .vmdk under controller:unit.fileName, a known controller, a 32-bit unit in any spelling, and a present setting that says true in any case), once for every such setting, by controller in dictionary order and then by unit; and the list is the stable sort of the accepted settings in that order. |
| `Vmx.ExtractNetworks` | crates/ovatool-core/src/vmx.rs:223-257 | An adapter is listed, once, if and only if ethernet... .present says true, with its own virtualDev and networkName settings, strictly by name in dictionary order. |
| `Vmx.AcceptsIff` | crates/ovatool-core/src/vmx.rs:156-205 | A setting is accepted as a disk if and only if it announces that disk. |
| `Vmx.AcceptsNetworkIff` | crates/ovatool-core/src/vmx.rs:228-236 | A setting is accepted as an adapter name if and only if it is the present setting of that name, starts with ethernet and says true. |
| `Text.ParsesIffSpelled` | crates/ovatool-core/src/vmx.rs:188 | A text is read as number n below the limit if and only if it is the decimal digits of n, perhaps after zeros and one plus sign. |
| `Vmx.DisksOrderIndependentIff` | crates/ovatool-core/src/vmx.rs:152-215 | The disk list is the same for all iteration orders if and only if no two accepted settings give one (controller, unit) different files. |
| `Vmx.NetworksOrderIndependent` | crates/ovatool-core/src/vmx.rs:223-257 | The adapter list is the same for all iteration orders. |
| `Vmx.ClashExample` | crates/ovatool-core/src/vmx.rs:152-215 | Units written 0 and 00 do clash. |
| `StableSort.SortIsStable` | crates/ovatool-core/src/vmx.rs:207-212 | The sort orders the list and keeps the order of equivalent elements. |
| `StableSort.StableSortUnique` | crates/ovatool-core/src/vmx.rs:207-212 | There is only one such list, so the result does not depend on the sorting algorithm. |
| `Descriptor.ParseDescriptor` | crates/ovatool-core/src/vmdk/descriptor.rs:108-194 | The line loop, with early return on the first bad line, computes the fold of one-line effects. |
| `ExtentText.ParsesIffWritten` | crates/ovatool-core/src/vmdk/descriptor.rs:213-280 | A line is read as an extent if and only if it is, with any white space around and between: access, size in any spelling, type in any case, the name in quotes and, perhaps, the offset, which is 0 if left out; white space inside the name collapses. |
| `ExtentText.LineErrors` | crates/ovatool-core/src/vmdk/descriptor.rs:213-280 | Otherwise the leftmost part that is wrong decides the error. |
| `ExtentText.ShortLine` | crates/ovatool-core/src/vmdk/descriptor.rs:213-222 | Fewer than four words is an error of its own, and only that. |
| `ExtentText.ExtentParses` | crates/ovatool-core/src/vmdk/descriptor.rs:213-280 | An extent with a known access mode and a name without quotes and only single spaces is read back from its line, whether or not an offset of 0 is printed. |
| `ExtentText.ParsedIsPrintable` | crates/ovatool-core/src/vmdk/descriptor.rs:129-133 | Every accepted extent line yields such an extent. |
| `DescriptorText.ExtentsParse` | crates/ovatool-core/src/vmdk/descriptor.rs:120-133 | Extent lines are appended in order, for every choice of which offsets of 0 are left out. |
| `DescriptorText.WrittenApplies` | crates/ovatool-core/src/vmdk/descriptor.rs:128-133 | Every form of an extent line adds its extent to what was parsed so far. |
| `DescriptorText.SettingApplies` | crates/ovatool-core/src/vmdk/descriptor.rs:135-211 | A setting line sets its key to the text behind the equals sign, white space around and quotes removed. |
| `DescriptorText.NumberApplies` | crates/ovatool-core/src/vmdk/descriptor.rs:138-150 | Version and ids are taken from any spelling, decimal and hexadecimal, each into its own field. |
| `DescriptorText.GeometryApplies` | crates/ovatool-core/src/vmdk/descriptor.rs:157-171 | So are cylinders, heads and sectors. |
| `DescriptorText.SettingErrors` | crates/ovatool-core/src/vmdk/descriptor.rs:138-177 | A setting fails, naming its key, exactly when its value is no number of the right kind and width. |
| `DescriptorText.HexParsesIff` | crates/ovatool-core/src/vmdk/descriptor.rs:143-150 | A text is read as a 32-bit hexadecimal number if and only if it is its digits in either case, perhaps after zeros and one plus sign. |
| `DescriptorText.LineSkipped` | crates/ovatool-core/src/vmdk/descriptor.rs:120-126 | Blank lines, comments and lines without an equals sign change nothing. |
| `DescriptorText.FirstErrorWins` | crates/ovatool-core/src/vmdk/descriptor.rs:108-194 | The first line that fails decides the result. |
| `DescriptorText.OnlyComments` | crates/ovatool-core/src/vmdk/descriptor.rs:108-126 | A text without settings gives version 1, parent id ffffffff and nothing else. |
| `DescriptorText.DescriptorRoundTripIff` | crates/ovatool-core/src/vmdk/descriptor.rs:108-280 | Writing a descriptor as text and parsing it gives it back, whichever offsets of 0 are left out, if and only if its extents have known access modes and good names and its strings are single lines. |
| `DescriptorText.ReparseIsStable` | crates/ovatool-core/src/vmdk/descriptor.rs:108-280 | Parsing any text, writing the result and parsing again changes nothing. |
| `Descriptor.SizeExactIff` | crates/ovatool-core/src/vmdk/descriptor.rs:83-93 | The size in sectors (in bytes) is the sum of the extents if and only if that fits 64 bits. |
| `DescriptorText.SizeSurvives` | crates/ovatool-core/src/vmdk/descriptor.rs:83-93 | The size of the parsed text is the sum over the written extents, however they are grouped, in 64-bit arithmetic. |
| `DescriptorText.DoubleSpaceLost` | crates/ovatool-core/src/vmdk/descriptor.rs:228-233 | A name with two spaces in a row is not read back. |

## Left out

- DEFLATE, SHA-256 and the thread pool: foreign code, present only as parameters and as the step system.
- File opening, memory mapping, path joining, `is_sparse_vmdk`, the clock, inner I/O errors: files are byte sequences.
- SparseReader.LoadDirectory: a 64-bit overflow is reported as an error, as in a build with overflow checks; a build without
  them goes on with the wrapped numbers. StreamIndex.OpenIff gives the exact condition for no overflow.
- Export.WriteImage: one formula stands for the two equivalent ones of the source. Progress callbacks, percentages and the
  per-run total are not modelled.
- ExportVm.ReferenceIntegrity: assumes a clean configuration; ExportVm.ExportReadsIff shows that this is the exact condition.
- XmlWriter.LinesExact: the reader knows no numeric character references, no single-quoted attributes and no comments; none
  of these is generated, and a name holding a reference or a comment is not plain.
- GuestOs.KnownGuests: the table of guest systems is data; only its examples and its indifference to case are stated.
- Ovf.Build: the letters and digits kept in the machine id are a parameter, assumed to be neither white space nor outside XML;
  lower-casing of guest names covers characters that become ASCII letters.
- DescriptorText.DescriptorRoundTripIff: the text form written is the one the parser documents; the program itself never
  writes a descriptor.
- How a disk is found to be flat, sparse or split, multi-extent flat disks, extent offsets and linked clones: the data path
  takes the first flat extent and ignores offsets, so there is nothing further to prove about them.
- Parsing of the VMX text itself, file name sanitising and the command line: easy members.
- Member order beyond the order of calls: the program writes the disks before the descriptor.
