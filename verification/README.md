# Verified models of the benchmark suite's encoders, state machines and solvers

This project models the hardest logic of the benchmark suite in Dafny 4.11 and proves what that logic is for.
`dafny verify dfyconfig.toml` checks all of it.

- **Image encoders** (`workloads/FAST/stb_image_write.h`). For each format there is a small decoder written from
  its standard, and the encoder is proved against it: the zlib compressor with its hash chains, lazy matching and
  stored fallback (`Inflate`, `DeflateTokens`, `BitStream`, `Zlib*`, `Adler`), the PNG writer (`Crc`, `Png*`), the
  TGA run-length writer behind its 64-byte buffer (`WriteBuffer`, `Tga`), the Radiance HDR scanlines (`Hdr`), and the
  JPEG entropy coder from the bit writer to the whole scan (`Jpeg`, `JpegCode`, `JpegBlock`, `JpegScan`).
- **Periodic jobs** (`generator/periodic_benchmark.c`). Two timer callbacks and the main thread share time stamps and
  a semaphore. The callbacks, the wait and the main thread's writes are methods of a class, proved equal to functions
  on the shared state; every interleaving is a run of a transition system over those functions (`Periodic`,
  `PeriodicProofs`). The two writes that end a job are two steps.
- **Camera pose** (`workloads/EPNP`). Over exact reals, with the square root as a function parameter: Householder QR
  in a flat array (`Vectors`, `QrSpec`, `Qr`, `QrRank`), the control points, the quadratic distance residuals and their
  Gauss-Newton steps (`EpnpSpec`, `Epnp`, `EpnpNewton`), and the Cayley map (`Matrix3`, `Cayley`).
- **Smaller cores**: the score pipeline (`ScoreSpec`, `ScoreFormulas`, `Scores`, `ScoreRuns`), the Telnet byte filter
  (`Telnet`), the CUSUM detector (`Cusum`) and the in-place command-line splitter (`CommandLine`).

Encoders that only append are specified by what a decoder does with the bytes: a predicate such as
`Tga.Advances(out, ..., done, to)` says that reading `out` takes the decoder from `done` to `to`, whatever follows, and
such pieces compose. `Reals.Product` is a product that proofs can keep closed.

## Where the code does less than it is for

- `stbi_zlib_compress` on an empty input writes no block at all; the result does not inflate. `Zlib.Compress` states
  the round trip with exactly that condition.
- A period callback between the two writes that end a job reports an end stamp that is half unset and posts before
  the job has ended (`PeriodicProofs.GapReportsHalfAStamp`); the next one can then post while a job is running, or
  leave two posts (`GapPostsDuringJob`, `GapPostsTwice`; `SemaphoreIs` says when). `ReportedOnceInOrder`
  and `NoPostDuringJob` show that this is the only way in which the reports and the posts go wrong.
- The final wait of `periodic_benchmark` ignores failures other than interruptions, so success can be returned
  with the last job not reported (`PeriodicProofs.FailedFinalWaitLosesReport`).
- `qr_solve` takes a column's scale over all rows but the last, so it gives up some matrices of full rank
  (`QrRank.FullRankGivenUp`); those it does not give up have full rank (`FactorisedHasFullRank`). `gauss_newton` then
  adds the step of the round before once more; in the first round that is whatever the vector held.
  `EpnpNewton.FullRankUnsolved` shows such a system for orthonormal singular vectors.
- A JPEG symbol without a Huffman code is written as no bits at all. `JpegBlock.EncodeBlock` and
  `JpegScan.EncodeScan` state the round trip with exactly the condition that every symbol written has a code.
- The scores compare with a baseline that is looked up when a measurement is entered: improving the baseline system
  can only lower the others (`ScoreRuns.BetterBaseline`, `BetterBaselineLowers`), while improving any other system
  lowers nobody (`BetterMeasurement`).
- With a separate deadline timer, a period callback can print a skipped deadline although none fell into its window
  (`PeriodicProofs.SkippedMeansSecondDeadline`).
- The TGA scan for raw packets compares pixels two apart, so packing is not optimal, but the round trip holds; widths
  and heights of 65536 and more are truncated in the header (`Tga.WriteTga`).
- The CUSUM benchmark never resets its mean, which grows by the step and the drift in every round (`Cusum.Mu`).

## Model

| member | source | states |
|---|---|---|
| BitStream.Stream.Push | workloads/FAST/stb_image_write.h:817-837 | a byte goes to the end of the buffer, whose capacity never shrinks and always exceeds what is stored |
| BitStream.Stream.Flush | workloads/FAST/stb_image_write.h:839-847 | moving whole bytes out of the accumulator changes no bit of the stream and leaves fewer than eight |
| BitStream.Stream.Add | workloads/FAST/stb_image_write.h:880-881 | the code is appended least significant bit first, with no lost or mixed bit in the 32-bit accumulator |
| BitStream.Reverse | workloads/FAST/stb_image_write.h:849-857 | the loop returns the code whose bits, least significant first, are the given bits most significant first |
| BitStream.Stream.AddReversed | workloads/FAST/stb_image_write.h:882-883 | a Huffman code is appended most significant bit first |
| BitStream.Stream.AddSymbol | workloads/FAST/stb_image_write.h:884-889 | the bits appended for a symbol are its code in the fixed table of section 3.2.6 of RFC 1951 |
| BitStream.Stream.Pad | workloads/FAST/stb_image_write.h:977-978 | fewer than eight bits, all zero, complete the last byte, and the loop ends |
| ZlibTables.LengthTable | workloads/FAST/stb_image_write.h:901-902 | both literal length tables are the standard's base lengths and extra bits, and their ranges leave no gap |
| ZlibTables.DistTable | workloads/FAST/stb_image_write.h:903-904 | both literal distance tables are the standard's base distances and extra bits, and their ranges leave no gap |
| DeflateTokens.SymbolRoundTrip | workloads/FAST/stb_image_write.h:884-889 | every symbol from 0 to 285 is read back from its fixed code, whatever follows |
| DeflateTokens.MatchRoundTrip | workloads/FAST/stb_image_write.h:957-966 | the bits of a length/distance pair make a decoder copy exactly that stretch of earlier text |
| DeflateTokens.TokensRoundTrip | workloads/FAST/stb_image_write.h:922-974 | decoding the bits of any well-formed token list gives the text the list stands for, whatever follows |
| DeflateTokens.CopyBackIsText | workloads/FAST/stb_image_write.h:957-966 | copying byte by byte from a place where the text agrees, overlapping or not, reproduces the text |
| Zlib.AgreementMeans | workloads/FAST/stb_image_write.h:859-865 | the counted length is where two stretches of the data first differ, or the limit |
| Zlib.CountMatch | workloads/FAST/stb_image_write.h:859-865 | the counter returns the common length, at most 258 and never past the data |
| Zlib.FindMatch | workloads/FAST/stb_image_write.h:925-933 | the match kept is at least 3 long, lies in the window, no candidate in the chain is longer, and no later one as long; none is kept only when none has 3 |
| Zlib.BetterNext | workloads/FAST/stb_image_write.h:942-955 | the look-ahead drops the match exactly when a candidate at the next byte is longer |
| Zlib.Record | workloads/FAST/stb_image_write.h:934-939 | the position goes to the end of its chain, of which a full one first loses its older half, and every chain stays a strictly increasing list of earlier positions of at most twice the quality |
| Zlib.ChooseMatch | workloads/FAST/stb_image_write.h:922-955 | position i is recorded at the end of its chain and nowhere else; the match chosen is the longest of that chain, and it is dropped exactly when the chain of the next byte has a longer one there |
| Zlib.LengthIndex | workloads/FAST/stb_image_write.h:960 | the scan stops at the table row whose range holds the match length |
| Zlib.DistIndex | workloads/FAST/stb_image_write.h:963 | the scan stops at the table row whose range holds the distance |
| Zlib.EmitMatch | workloads/FAST/stb_image_write.h:957-966 | the bits written are those of a token with exactly this length and distance |
| Zlib.EmitToken | workloads/FAST/stb_image_write.h:957-970 | one round writes the match it is given, or a literal when there is none; the token extends the text decoded so far up to the next position |
| Zlib.EncodeTokens | workloads/FAST/stb_image_write.h:921-974 | the tokens written stand for the whole input, and each is the match chosen at its position, or a literal when there is none |
| Zlib.CompressFixed | workloads/FAST/stb_image_write.h:913-978 | the fixed-code stream with its checksum inflates to the input |
| ZlibFormat.StoredBlockDecodes | workloads/FAST/stb_image_write.h:987-998 | reading one stored block, with its complemented length, yields its data |
| ZlibFormat.StoredDecodes | workloads/FAST/stb_image_write.h:987-998 | for every non-empty input the chain of stored blocks decodes to it |
| ZlibFormat.EmptyStreamFails | workloads/FAST/stb_image_write.h:985-999 | for the empty input the fallback writes no block, and the result is not a zlib stream |
| Zlib.PushHeader | workloads/FAST/stb_image_write.h:990-994 | the five header bytes are the final flag, LEN and its complement, as truncated from a negative int |
| Zlib.StoreInstead | workloads/FAST/stb_image_write.h:984-999 | the fallback writes exactly the stored form and every copy fits in the allocation that is already there |
| Adler.PeakFits | workloads/FAST/stb_image_write.h:1003-1008 | after a block of at most 5552 bytes neither sum reaches 2^32 |
| Adler.SumBlock | workloads/FAST/stb_image_write.h:1007-1008 | one block continues both sums without wrap-around |
| Adler.Adler32 | workloads/FAST/stb_image_write.h:1001-1011 | reducing once per block, with a short and perhaps empty first block, gives the per-byte sums of section 2.2 of RFC 1950 |
| Zlib.AppendChecksum | workloads/FAST/stb_image_write.h:1012-1015 | the checksum is appended high byte first |
| Zlib.Compress | workloads/FAST/stb_image_write.h:895-1022 | the output inflates to the input if and only if the input is not empty, and is never longer than data_len + 6 + 5*ceil(data_len/32767); it is the fixed-code form of the chosen tokens, for a quality of at least 5, unless the stored form is shorter |
| Crc.TableIsStep8 | workloads/FAST/stb_image_write.h:1029-1063 | each of the 256 literal entries is eight bitwise steps of its index |
| Crc.Step8Linear | workloads/FAST/stb_image_write.h:1067-1068 | eight bitwise steps are linear over exclusive or |
| Crc.TableStep | workloads/FAST/stb_image_write.h:1067-1068 | one table step equals eight bitwise steps of section 5.5 of the PNG specification |
| Crc.ComputeCrc | workloads/FAST/stb_image_write.h:1024-1071 | the loop returns the bitwise CRC of the buffer |
| PngFilter.FirstByteFilters | workloads/FAST/stb_image_write.h:1107-1117 | for the first pixel, each of the mapped filter types subtracts what the PNG filter predicts there |
| PngFilter.NextByteFilters | workloads/FAST/stb_image_write.h:1118-1125 | for later bytes too, in the first scanline and in all others |
| PngFilter.EncodeLine | workloads/FAST/stb_image_write.h:1092-1126 | the line buffer holds every filtered byte as a signed character, reading only inside the pixels |
| PngFilter.UnfilterFiltered | workloads/FAST/stb_image_write.h:1092-1126 | undoing the filter (section 9.2 of the PNG specification) gives the scanline back, for every filter |
| PngWriter.ChooseFilter | workloads/FAST/stb_image_write.h:1151-1165 | the filter kept has the smallest estimate, the first one on a tie |
| PngWriter.FilterLine | workloads/FAST/stb_image_write.h:1148-1173 | a filter byte and that filter's bytes, for a forced and for an estimated filter |
| PngWriter.RowsAre | workloads/FAST/stb_image_write.h:1098-1100 | byte i of scanline j lies at the pointer, plus the stride times j, or y-1-j when flipping, plus i; a stride of zero stands for rows without gaps |
| PngWriter.AboveIsBefore | workloads/FAST/stb_image_write.h:1099-1100 | with and without flipping, the row one signed stride back is the scanline above, and lies inside the pixels |
| PngWriter.FilterImage | workloads/FAST/stb_image_write.h:1146-1174 | the filtered image unfilters to all rows in the order of the file |
| PngWriter.ScanlinesRoundTrip | workloads/FAST/stb_image_write.h:1146-1174 | unfiltering the filtered image gives all rows back |
| PngWriter.ChunkRoundTrip | workloads/FAST/stb_image_write.h:1073-1081 | a chunk with its length and CRC is read back, whatever follows |
| PngWriter.HeaderRoundTrip | workloads/FAST/stb_image_write.h:1187-1196 | width, height and channel count are read back from IHDR |
| PngWriter.FileRoundTrip | workloads/FAST/stb_image_write.h:1185-1207 | the three chunks are read back in order, with nothing after IEND |
| PngWriter.TagsAre | workloads/FAST/stb_image_write.h:1132-1207 | the signature and the three chunk types are those of the PNG specification |
| PngWriter.DataRoundTrip | workloads/FAST/stb_image_write.h:1176-1203 | IDAT data that inflates to the filtered image decodes to the pixels |
| PngWriter.WritePng | workloads/FAST/stb_image_write.h:1128-1212 | for strides of either sign the whole file decodes to the pixels, upside down when flipping is set |
| Jpeg.StuffRoundTrip | workloads/FAST/stb_image_write.h:1258-1262 | dropping the zero after each 0xFF undoes the stuffing |
| Jpeg.EnterCode | workloads/FAST/stb_image_write.h:1255-1256 | a code or-ed into the register meets no pending bit and loses none, whatever stale bits stand above bit 24 |
| Jpeg.LeaveByte | workloads/FAST/stb_image_write.h:1257-1265 | the byte shifted out is the first eight pending bits, and the rest stay pending |
| Jpeg.Writer.WriteBits | workloads/FAST/stb_image_write.h:1253-1268 | the sink and the pending bits together are exactly the concatenated codes, with a zero byte stuffed after each 0xFF |
| JpegBlock.CalcBits | workloads/FAST/stb_image_write.h:1318-1326 | the size category and magnitude bits extend back to the value (section F.2.2.1 of ITU-T T.81) |
| JpegCode.SymbolRead | workloads/FAST/stb_image_write.h:1360-1392 | with a prefix-free table a code at the front is the symbol read, whatever follows |
| JpegCode.RunRead | workloads/FAST/stb_image_write.h:1374-1391 | the bits of a coefficient after any run, with its ZRLs, move the decoder past exactly that run and coefficient |
| JpegCode.SixteenZeros | workloads/FAST/stb_image_write.h:1381-1387 | a ZRL puts sixteen zeros in place |
| JpegCode.DCRead | workloads/FAST/stb_image_write.h:1355-1363 | the bits of the DC difference decode to it |
| JpegCode.BlockRead | workloads/FAST/stb_image_write.h:1355-1395 | with a code for every symbol that is written, the bits of a block decode to its 64 coefficients, whatever follows |
| JpegCode.CodesNeeded | workloads/FAST/stb_image_write.h:1374-1391 | bits that decode to a block, however they were made, hold a run/size code for each of its coefficients, which have at most 15 magnitude bits, and a ZRL for a run of sixteen or more |
| JpegCode.SymbolsNeeded | workloads/FAST/stb_image_write.h:1355-1391 | the same with the code of the DC difference, whatever is left over |
| JpegCode.FillStandsIn | workloads/FAST/stb_image_write.h:1596-1597 | without an end-of-block code a block can still decode when the ones that fill up the last byte start with the code of sixteen zeros |
| JpegBlock.EncodeDC | workloads/FAST/stb_image_write.h:1355-1363 | exactly the bits of the DC difference are appended |
| JpegBlock.EncodeRun | workloads/FAST/stb_image_write.h:1374-1391 | exactly the bits of the run and its coefficient are appended |
| JpegBlock.EncodeBlock | workloads/FAST/stb_image_write.h:1355-1395 | the bits written for a block decode to its 64 coefficients, whatever follows, if and only if the tables have a code for every symbol written and no AC coefficient has 16 magnitude bits |
| JpegCode.BaselineCodable | workloads/FAST/stb_image_write.h:1425-1462 | tables with the symbols of baseline JPEG have every code a block in the baseline range needs |
| JpegScan.TablesByHeader | workloads/FAST/stb_image_write.h:1500-1521 | a reader that goes by the scan header and the table definitions uses the luminance tables for component 0 and the chrominance tables for 1 and 2 |
| JpegScan.ComponentsAre | workloads/FAST/stb_image_write.h:1501-1502 | the order in which blocks are written is the one that the sampling factors of the frame header announce |
| JpegScan.ScanRead | workloads/FAST/stb_image_write.h:1532-1594 | with a code for every symbol written, a reader that goes by the headers gets all blocks from the bits |
| JpegScan.EncodeUnits | workloads/FAST/stb_image_write.h:1532-1594 | with and without subsampling, the bits written are those of the blocks in order, Y with the luminance tables, U and V with the chrominance tables, each with the DC prediction of its own component |
| JpegScan.EncodeScan | workloads/FAST/stb_image_write.h:1522-1602 | with a code for every symbol written, the segment before EOI unstuffs, a reader that goes by the headers gets all blocks, and at most seven one bits are left; if the tables have the end-of-block codes that are written, only then, and without the other codes never |
| JpegScan.CodesInSegment | workloads/FAST/stb_image_write.h:1522-1602 | a segment that decodes to these blocks, however it was made, needs a code for every symbol, given the end-of-block codes |
| WriteBuffer.Context.Flush | workloads/FAST/stb_image_write.h:386-392 | flushing changes no byte of the output |
| WriteBuffer.Context.Write1 | workloads/FAST/stb_image_write.h:399-404 | the 64-byte buffer sends what an unbuffered writer would |
| WriteBuffer.Context.Write3 | workloads/FAST/stb_image_write.h:406-416 | three bytes likewise, flushed first when they do not fit |
| Tga.PixelRead | workloads/FAST/stb_image_write.h:418-449 | a reader that takes blue, green, red and alpha from the file shows what lies in memory as red, green, blue and alpha |
| Tga.WritePixel | workloads/FAST/stb_image_write.h:418-449 | the bytes sent for a pixel are its channels in the order of the file |
| Tga.ChoosePacket | workloads/FAST/stb_image_write.h:562-590 | packets hold 1 to 128 pixels of the row; a run is as long as possible; a raw packet stops only before a pixel equal to the one two back |
| Tga.RunPacket | workloads/FAST/stb_image_write.h:599-602 | a run packet decodes to its pixel repeated |
| Tga.RawPacket | workloads/FAST/stb_image_write.h:593-597 | a raw packet decodes to its pixels |
| Tga.EncodeRow | workloads/FAST/stb_image_write.h:558-604 | the packets of a row decode to exactly the colours of its pixels and never cross its end |
| Tga.EncodeRows | workloads/FAST/stb_image_write.h:547-605 | all rows decode in bottom-up order, or top-down when flipping is set |
| Tga.WriteTga | workloads/FAST/stb_image_write.h:532-609 | negative sizes are refused; otherwise the file decodes to the colours in memory if and only if both sizes fit in 16 bits |
| Hdr.RunData | workloads/FAST/stb_image_write.h:656-662 | a run of 1 to 127 equal bytes decodes to them |
| Hdr.DumpData | workloads/FAST/stb_image_write.h:664-670 | a dump of 1 to 128 bytes decodes to them |
| Hdr.FindRun | workloads/FAST/stb_image_write.h:727-735 | the search returns the first place where three bytes agree, or the end of the line |
| Hdr.EncodeComponent | workloads/FAST/stb_image_write.h:725-756 | every component is recovered byte by byte, and the nested loops end because x advances in every round |
| Hdr.FillScratch | workloads/FAST/stb_image_write.h:700-717 | the scratch buffer holds the four components one after the other |
| Hdr.EncodeScanline | workloads/FAST/stb_image_write.h:672-759 | a line of any width decodes to its pixels, packed for widths 8 to 32767 and plain otherwise |
| Hdr.EncodeLines | workloads/FAST/stb_image_write.h:780-781 | all lines decode in order, with one scratch buffer, flipped when asked |
| Periodic.Benchmark.HandleDeadline | generator/periodic_benchmark.c:247-259 | the callback's effect on the shared stamps |
| Periodic.Benchmark.HandlePeriod | generator/periodic_benchmark.c:288-408 | the callback's effect on the shared stamps, the report lines and the semaphore, with both ways in which it ends the process |
| Periodic.Benchmark.AwaitPost | generator/periodic_benchmark.c:679-687 | the wait is repeated exactly while it is interrupted; a granted one takes one from the semaphore and a failed one nothing |
| Periodic.Benchmark.EndJobClocks | generator/periodic_benchmark.c:704 | the first of the two writes that end a job |
| Periodic.Benchmark.EndJobTime | generator/periodic_benchmark.c:705 | the second |
| PeriodicProofs.EveryRun | generator/periodic_benchmark.c:288-408 | in every run the reported windows tile it, a window ends at its first callback, and each half of a job's end stamp is later than every callback before it |
| PeriodicProofs.GapFreeRuns | generator/periodic_benchmark.c:288-408 | every run without a reporting callback between those two writes stays in six phases, in which the finished jobs are the reported ones and at most one more |
| PeriodicProofs.NoPostDuringJob | generator/periodic_benchmark.c:383-407 | no callback posts while a job is running if and only if none falls between the two writes that end a job, and then the semaphore is 0 or 1 |
| PeriodicProofs.LinesAreLog | generator/periodic_benchmark.c:323-365 | the lines printed for completions are exactly the reports of the log |
| PeriodicProofs.ReportedOnceInOrder | generator/periodic_benchmark.c:324-407 | the reported end stamps are a prefix of the real ones, once each and in order, if and only if no callback falls between the two writes |
| PeriodicProofs.LaunchCount | generator/periodic_benchmark.c:667-676 | with a number of tasks, the jobs launched and the one in progress never exceed it; without a time limit the final wait comes after exactly that many jobs, and never when no number is given |
| PeriodicProofs.ReportsAtReturn | generator/periodic_benchmark.c:667-719 | when the final wait has been granted, the reports are those of all launched jobs, in order, if and only if no callback fell into a gap; without a time limit these are as many as there are tasks |
| PeriodicProofs.GapReportsHalfAStamp | generator/periodic_benchmark.c:704-705 | a run with a callback between the two writes: the job is reported with an end time of zero and the next one posted before it has ended |
| PeriodicProofs.GapPostsDuringJob | generator/periodic_benchmark.c:383-387 | continued, that run posts while a job is running |
| PeriodicProofs.GapPostsTwice | generator/periodic_benchmark.c:383-407 | or leaves two posts on the semaphore after one job |
| PeriodicProofs.SemaphoreIs | generator/periodic_benchmark.c:383-407 | in every run the semaphore, a job that is running and an end stamp that waits for its callback add up to one and the callbacks in gaps less the late stamps that the next job overwrites, so there are two posts or more exactly when that surplus exceeds the other two |
| PeriodicProofs.FailedFinalWaitLosesReport | generator/periodic_benchmark.c:712-719 | a final wait that fails otherwise is ignored: a run returns success with its only job not reported |
| PeriodicProofs.WindowsTile | generator/periodic_benchmark.c:388-394 | in every run each job's period start is the callback that reported the job before it |
| PeriodicProofs.MetMeansFirstCallback | generator/logging.c:70-74 | with no separate deadline timer the reported deadline is the reported end, and a job is met exactly when the first callback after its start reports it with both halves of its end stamp, which are always there when no callback fell into a gap |
| PeriodicProofs.MetMeansBeforeDeadline | generator/logging.c:70-74 | with a separate deadline timer a job is met exactly when a deadline callback fell into its window and its end is no later than the first one; without one the deadline is zero and the job is missed however early it ended |
| PeriodicProofs.SkippedMeansSecondDeadline | generator/periodic_benchmark.c:366-380 | with a separate deadline timer, a callback that finds a job unfinished prints a skipped deadline when there were two or more in the window, and also when there was none but one before it |
| Vectors.ReflectPreservesDot | workloads/EPNP/Epnp.cpp:772-787 | a reflection keeps inner products |
| Vectors.ReflectLinear | workloads/EPNP/Epnp.cpp:772-787 | a reflection is linear |
| QrSpec.HouseholderNormal | workloads/EPNP/Epnp.cpp:759-771 | the vector built from the scaled column, with the signed root added, is the normal of a reflection, never zero |
| QrSpec.HouseholderMaps | workloads/EPNP/Epnp.cpp:759-771 | that reflection maps the column to minus eta times sigma on the diagonal and zeros below |
| QrSpec.Triangular | workloads/EPNP/Epnp.cpp:740-790 | all reflections together make the matrix upper triangular with the stored diagonal, which has no zero |
| QrSpec.TriangularSolves | workloads/EPNP/Epnp.cpp:792-825 | a solution of the triangular system satisfies the normal equations |
| QrSpec.SolvesTriangular | workloads/EPNP/Epnp.cpp:792-825 | and a solution of the normal equations solves the triangular system |
| QrSpec.LeastSquares | workloads/EPNP/Epnp.cpp:715-826 | no other coefficients leave a shorter residual |
| QrSpec.Unique | workloads/EPNP/Epnp.cpp:715-826 | the solution is the only one |
| Qr.LargestScale | workloads/EPNP/Epnp.cpp:743-749 | the scale is the largest magnitude of the column over all rows but the last |
| Qr.Reflector | workloads/EPNP/Epnp.cpp:743-771 | one step leaves the normal, half its square and the new diagonal entry, and stops on a zero scale |
| Qr.ApplyToColumn | workloads/EPNP/Epnp.cpp:772-787 | the loops over a later column compute its reflection in place |
| Qr.Factorise | workloads/EPNP/Epnp.cpp:740-790 | the flat matrix after the loop holds the factors, or the loop stopped at a zero scale |
| Qr.ReflectRight | workloads/EPNP/Epnp.cpp:792-810 | the right-hand side is reflected by all steps in order |
| Qr.BackSubstitute | workloads/EPNP/Epnp.cpp:812-825 | every row of the triangular system is satisfied |
| Qr.QrSolve | workloads/EPNP/Epnp.cpp:715-826 | X satisfies the normal equations when no scale is zero; otherwise X and b are left as they were |
| Qr.LastRowOverlooked | workloads/EPNP/Epnp.cpp:743-756 | every matrix whose first column is zero except in the last row is given up |
| QrRank.FullRankGivenUp | workloads/EPNP/Epnp.cpp:743-756 | a matrix of four different unit columns, whose normal equations have exactly one solution for every right-hand side, is given up |
| QrRank.FactorisedHasFullRank | workloads/EPNP/Epnp.cpp:743-786 | a matrix that is not given up has full rank |
| EpnpSpec.LengthOfWeighted | workloads/EPNP/Epnp.cpp:631-644 | the ten coefficients of a pair give the squared length of every combination of its differences |
| EpnpSpec.MissIsPolynomial | workloads/EPNP/Epnp.cpp:659-690 | b_i is the world squared distance of pair i minus the squared distance of the same pair of camera points, for all betas and all Ut |
| EpnpSpec.MissAfterStep | workloads/EPNP/Epnp.cpp:659-690 | residual(beta + d) = b - A d - Q(d) for every step d, with Q the quadratic form of d |
| EpnpSpec.BarycentricIs | workloads/EPNP/Epnp.cpp:156-179 | the coordinates are the only coefficients of sum one that give the point back, and they do |
| EpnpSpec.AffineMapCarries | workloads/EPNP/Epnp.cpp:218-232 | moving the control points by an affine map moves every point built from them |
| EpnpSpec.RowsAreProjection | workloads/EPNP/Epnp.cpp:182-199 | both rows of M vanish on camera points exactly when the point projects to its measurement |
| Epnp.Solver.ComputeBarycentric | workloads/EPNP/Epnp.cpp:156-179 | the loop fills every point's coordinates |
| Epnp.Solver.ComputeCcs | workloads/EPNP/Epnp.cpp:202-215 | the loops sum up the camera control points |
| Epnp.Solver.ComputePcs | workloads/EPNP/Epnp.cpp:218-232 | every camera point is the combination its weights give |
| Epnp.Solver.SolveForSign | workloads/EPNP/Epnp.cpp:436-465 | the first point ends up on the side its measurement says; exactly then all control points and points turn, and points that were built from the control points still are |
| Epnp.OppositeKeepsDistance | workloads/EPNP/Epnp.cpp:454-463 | turning keeps every distance |
| Epnp.Solver.FillM | workloads/EPNP/Epnp.cpp:182-199 | two rows are filled and no other |
| EpnpNewton.ComputeDifferences | workloads/EPNP/Epnp.cpp:608-629 | the counters a and b run through the six pairs, and the differences of all pairs are stored |
| EpnpNewton.ComputeL | workloads/EPNP/Epnp.cpp:608-645 | each row holds the coefficients of its pair |
| EpnpNewton.ComputeRho | workloads/EPNP/Epnp.cpp:648-657 | the six world squared distances, in the order of the pairs |
| EpnpNewton.ComputeSystem | workloads/EPNP/Epnp.cpp:660-690 | A is the Jacobian row by row and b the missing distances |
| EpnpNewton.ResidualIsLinearised | workloads/EPNP/Epnp.cpp:660-690 | the residual of the linear system is the distance constraint with the quadratic part of the step taken out |
| EpnpNewton.NormalIsBest | workloads/EPNP/Epnp.cpp:706-707 | a solution of the normal equations leaves the shortest linearised residual of all steps |
| EpnpNewton.GaussNewton | workloads/EPNP/Epnp.cpp:693-712 | each of the five rounds takes the best step when the system can be factorised, and otherwise repeats the step of an earlier round |
| EpnpNewton.FullRankUnsolved | workloads/EPNP/Epnp.cpp:693-712 | orthonormal singular vectors, and betas as find_betas_approx_2 leaves them, whose system has full rank and is given up, so that the round repeats what x held before |
| Cayley.IsRotationMatrix | workloads/EPNP/cayley.cpp:35-52 | the result is orthogonal with determinant 1, for every vector |
| Cayley.SumInvertible | workloads/EPNP/cayley.cpp:73-80 | R + I is invertible, with an explicit inverse |
| Cayley.CayleyForm | workloads/EPNP/cayley.cpp:35-52 | R - I equals the cross-product matrix of c times R + I |
| Cayley.BackToVector | workloads/EPNP/cayley.cpp:73-88 | rot2cayley gives the vector back |
| Cayley.CayleyMatrixSkew | workloads/EPNP/cayley.cpp:73-88 | for an orthogonal matrix the product that rot2cayley reads three entries of is skew |
| Cayley.BackToRotation | workloads/EPNP/cayley.cpp:35-88 | cayley2rot gives every orthogonal matrix back for which R + I is invertible |
| Cayley.CayleyImage | workloads/EPNP/cayley.cpp:35-88 | the results of cayley2rot are exactly the orthogonal matrices with R + I invertible |
| ScoreSpec.BetterRatio | utils/score_caculate.py:213-225 | a better positive measurement never lowers the ratio |
| ScoreSpec.SaturationMonotone | utils/score_caculate.py:228-243 | the curve never falls and stays within 0 and 100 |
| ScoreSpec.MeanMonotone | utils/score_caculate.py:246-248 | higher scores, same number: a mean at least as high |
| ScoreSpec.WeightedMonotone | utils/score_caculate.py:1068-1089 | with the same parts missing, higher parts give a weighted mean at least as high |
| ScoreSpec.WeightedInRange | utils/score_caculate.py:1068-1089 | parts within 0 and 100 give a weighted mean within 0 and 100 |
| ScoreSpec.ScoreMonotone | utils/score_caculate.py:911-1065 | records at least as good give every stored score at least as high, and the same ones missing |
| ScoreSpec.BetterNeverLowers | utils/score_caculate.py:911-1065 | better measurements with the same items present lower no stored score of any system |
| ScoreSpec.ImprovingOne | utils/score_caculate.py:213-243 | improving one positive measurement lowers no stored score |
| ScoreSpec.UnflaggedIsThere | utils/score_caculate.py:945-955 | a group score without the partial flag is there, and the total always is |
| ScoreRuns.UpsertedRows | utils/score_caculate.py:281-309 | a record replaces the one with its key or is added, and no key occurs twice |
| ScoreRuns.StoredInRange | utils/score_caculate.py:632-671 | whatever measurements are entered and boards scored, in any order: with miss rates within 0 and 1 every stored score lies within 0 and 100 |
| ScoreRuns.MissRateCounts | utils/score_caculate.py:640-656 | an average miss rate of mr is a schedulability score of 100 - 100 mr at once |
| ScoreRuns.BaselineBelow | utils/score_caculate.py:331-341 | the baseline is the first record of the baseline system with the key, and between two tables it differs only where that record does |
| ScoreRuns.BetterRecorded | utils/score_caculate.py:476-509 | a better timing, rate or energy of a system other than the baseline gives a record that is nowhere worse, against any baseline |
| ScoreRuns.BetterMeasurement | utils/score_caculate.py:476-509 | replacing one measurement anywhere in a run by a better one lowers no stored score of any system and makes none missing, unless it is one of the baseline system |
| ScoreRuns.BetterBaseline | utils/score_caculate.py:331-341 | a better timing or energy of the baseline system raises no stored score of any system |
| ScoreRuns.BetterBaselineLowers | utils/score_caculate.py:331-341 | halving one time of the baseline system lowers the total of another system from 72 to 64 |
| Scores.ScoreSame | utils/score_caculate.py:911-1065 | the scores of a system depend on its own records only |
| ScoreFormulas.RescoredIs | utils/score_caculate.py:346-393 | a record of category realtime or workload with a ratio, no miss rate and a good status gets 100r/(0.25+r), or 0 when r is not positive; so does a power measurement; no other record changes |
| ScoreFormulas.SubScoreIs | utils/score_caculate.py:917-945 | a sub-category is the average over the records of the system whose status is none of three, a misplaced system call left out |
| ScoreFormulas.MulticoreIs | utils/score_caculate.py:246-271 | the mean of the averages of the groups that are there, by item prefix |
| ScoreFormulas.BaseIs | utils/score_caculate.py:69-74 | the stored base score is the sum of 0.10, 0.10, 0.40 and 0.40 times the sub-scores that are there, over the weight that is there |
| ScoreFormulas.RealtimeIs | utils/score_caculate.py:973-979 | half the base and half the schedulability score, over what is there |
| ScoreFormulas.TypicalIs | utils/score_caculate.py:981-1010 | a quarter for each workload category, over what is there |
| ScoreFormulas.PowerIs | utils/score_caculate.py:862-897 | the mean of the power measurements that are there |
| ScoreFormulas.SchedIs | utils/score_caculate.py:959-966 | the score of the record of the average miss rate |
| ScoreFormulas.TotalIs | utils/score_caculate.py:1047-1056 | 0.2 of a fixed 60, 0.3 of real time, 0.4 of the workloads and 0.1 of power, over what is there |
| ScoreFormulas.FlagsAre | utils/score_caculate.py:940-1056 | an entry is flagged exactly when one of the parts listed is missing |
| ScoreFormulas.WeightsDiffer | utils/score_caculate.py:69-74 | an interrupt latency scored 40 and a scheduling latency scored 80 make a base score of 72 and a total of 67.2 |
| Scores.Scorer.NormalizeItems | utils/score_caculate.py:346-393 | exactly the eligible records of the board are scored, by the formula in numbers |
| Scores.Scorer.NormalizePower | utils/score_caculate.py:852-905 | exactly the eligible power records are scored, by the formula in numbers, and each system gets the mean of those it has |
| Scores.Scorer.Recalc | utils/score_caculate.py:911-1065 | all entries of the system are stored, each with its score and its partial flag, as the formulas with their weights say, and no other entry changes |
| Scores.Scorer.RecomputeAll | utils/score_caculate.py:1252-1278 | every record ends up with the score its fields call for and every system with the entries the formulas call for; no other entry changes, and the result is the number of systems |
| Scores.RecomputeIdempotent | utils/score_caculate.py:1252-1278 | a second recomputation changes no record and no stored score |
| Telnet.RunConcat | utils/stress-auto-test/dut_connection.py:223-258 | where the stream is cut into chunks makes no difference |
| Telnet.ItemFiltered | utils/stress-auto-test/dut_connection.py:223-258 | each stream element is consumed whole, with its text and its answer |
| Telnet.StreamFiltered | utils/stress-auto-test/dut_connection.py:223-258 | a well-formed stream (RFC 854, RFC 855) yields its data with doubled 255 collapsed, WONT for each DO and DONT for each WILL, and nothing else |
| Telnet.Numbers | utils/stress-auto-test/dut_connection.py:217-221 | in numbers, 255 253 x is answered by 255 252 x and 255 251 x by 255 254 x |
| Telnet.TelnetConnection.SendResponse | utils/stress-auto-test/dut_connection.py:217-221 | WONT answers DO, DONT answers WILL, and nothing answers a refusal |
| Telnet.TelnetConnection.Filter | utils/stress-auto-test/dut_connection.py:223-260 | one chunk, from any state |
| Telnet.TelnetConnection.FilterChunks | utils/stress-auto-test/dut_connection.py:223-260 | a well-formed stream in any chunks |
| Cusum.MaxSuffixNext | workloads/CUSUM/cusum_bench.c:53-55 | the recurrence keeps the largest suffix sum, the empty suffix included |
| Cusum.Detector.Step | workloads/CUSUM/cusum_bench.c:51-63 | both sums are the largest suffix sums since the last alarm, and a sample raises an alarm exactly when some such sum exceeds h |
| Cusum.NoFalseAlarm | workloads/CUSUM/cusum_bench.c:51-63 | samples within the allowance never raise an alarm |
| Cusum.ShiftDetected | workloads/CUSUM/cusum_bench.c:51-63 | n samples that lie d or more beyond the allowance raise another alarm as soon as n*d exceeds h |
| Cusum.MuIs | workloads/CUSUM/cusum_bench.c:91-96 | a round begins 1.25 above the one before, steps by 0.35 at sample 2000 and drifts by 0.00045 from sample 4000 on |
| Cusum.RunStream | workloads/CUSUM/cusum_bench.c:91-104 | the loop counts exactly the alarms of the stream, whose mean is never reset between rounds |
| CommandLine.SpacesAndQuotes | generator/ruihua_entry.c:85-92 | white space is one of six characters and a quote one of two |
| CommandLine.SlicesDisjoint | generator/ruihua_entry.c:85-108 | the arguments are disjoint, in order, with room for a terminator each, and at most max_args |
| CommandLine.Terminate | generator/ruihua_entry.c:97-107 | an argument ends at its closing quote or at white space, and one terminator is written there |
| CommandLine.SplitCommandLine | generator/ruihua_entry.c:80-110 | argv points at the arguments in order, the buffer changes only at their ends, and no pointer beyond them is stored |
| CommandLine.SlicesAreStrings | generator/ruihua_entry.c:97-107 | each pointer's C string is exactly its argument |
| CommandLine.SplitsIntoArgs | generator/ruihua_entry.c:80-110 | for every list of bare or quoted arguments separated by white space the line is cut into exactly that list, or its first max_args |
| CommandLine.SplitWritten | generator/ruihua_entry.c:80-110 | the same, for the buffer in place |

## Left out

- File, callback and socket I/O, timers, signals and allocation failure: sinks are byte sequences, memory is there.
- The JPEG colour conversion, DCT and quantisation and the RGBE packing of floats: floating point; coefficients and
  packed pixels are inputs.
- The literal JPEG Huffman tables: any prefix-free tables with codes of at most 16 bits are allowed; the
  JPEG file headers are modelled only as far as they choose tables and sampling.
- JpegScan.EncodeScan: when the tables lack the end-of-block code of a block that does not fill up its coefficients,
  a segment can still decode, because the fill bits can stand in for that code (`JpegCode.FillStandsIn`); for such
  tables the other codes are shown to be necessary, and the exact condition is stated block by block.
- JpegBlock.EncodeBlock: differences and coefficients with more than 16 magnitude bits, and a run/size beyond the 256
  entries of the table, for which the code reads outside of it, are not modelled.
- The text header of the HDR file, the uncompressed TGA path and the BMP writer: only easy members.
- Performance counters and memory profiling in the periodic loop, and the text of a report line: a report is the
  stamps it is printed from, and the line for a skipped deadline is kept.
- Periodic.Benchmark.HandlePeriod: the timers themselves are not modelled, only whether rearming one fails; callbacks
  are atomic.
- PeriodicProofs.LaunchCount: the time limit may strike at any turn of the loop; the clock it compares with is not
  modelled.
- Rounding in ePnP, CUSUM and the scores: reals are exact.
- Eigen's singular value decomposition and inverses: inverses are inputs with the equations they satisfy as
  hypotheses. `choose_control_points`, the three initial guesses for the betas, `estimate_R_and_t` and the
  reprojection errors are not part of this model.
- The scorer's database, JSON and Excel parsing, logs, time stamps and the extra JSON columns: the two tables are a
  sequence of records in row order and a map by key; status and metric type are never null.
- Scores.Scorer.Recalc: the extra JSON column of an entry, which repeats what the score was made of, is not modelled.
- ScoreRuns.StoredInRange: the Excel form of the power measurements is not part of this model.
- ScoreRuns.BetterBaseline: assumes that later measurements of the same item are of the same kind, as the parsers
  make them.
- Telnet option semantics beyond refusal, and UTF-8 decoding of the text.
- The pseudo-random noise of the CUSUM benchmark: any noise is allowed.
- CommandLine.SplitCommandLine: `isspace` is that of the C locale; a negative `max_args` is not modelled.
- Integer overflow of sizes in the image writers: sizes stay in the range of int, as `PngWriter.WritePng` requires,
  and so does the estimate of a PNG filter, which 2^24 bytes in a row could exceed.
- Hdr.EncodeLines: the packing of floats never yields the mantissas 1, 1, 1, which readers of unpacked lines take as a
  repeat; the type of a packed pixel excludes them.
- The ICP, FAST, EKF, PID, MQTT and Modbus workloads, platform entry files, option parsing and upload scripts.
