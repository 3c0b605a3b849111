# Verified models of five fxe components

This project models the parts of fxe whose correctness rests on state, offsets and arithmetic, and
proves what they promise. Each module follows one source file or one layer of it.

1. **Text document** (`Units`, `Lines`, `Edits`, `Batches`, `Pieces`, `Search`, `Document`, `History`).
   The piece table is a class whose methods update pieces, prefix sums and the add buffer in place. Its
   abstract value is a plain string; every edit and every read is proved against that string, for any
   run of edits. Batches, undo, the line index and literal search are specified on strings.
   `Utf` is the UTF-8/UTF-16 codec pair of the same file.
2. **WebSocket framing** (`Bytes`, `Frames`, `FrameLaws`, `Reader`, `Messages`). Encoder, incremental
   decoder, and the reader that joins fragments and answers pings. The socket is a list of chunks still
   to arrive and a log of bytes sent, so the results hold for any chunking. References to sections are to
   RFC 6455.
3. **Glyph atlas** (`Pixels`, `Atlas`). The shelf packer, its growth and its rebuild, with the pixels.
   The class carries a ghost list of everything placed; validity says that these places are in bounds,
   apart by the padding, and show their bytes.
4. **Geometry** (`Vertices`, `Patterns`, `Triangulate`, `CommandBuffer`, `Drawings`, `Dashes`). Index
   emission and queueing, ear clipping with area conservation, and the dash walker, over exact reals. Whole
   drawings, with buffers queued into buffers to any depth, are proved to show what a plain list of vertices
   would.
5. **PDF writer** (`Decimals`, `Words`, `PageContent`, `PageShapes`, `Pdf`, `PdfReader`, `References`,
   `PdfDocument`). The printer and, beside it, a reader that starts at the end of the file, follows the
   cross-reference table and the references, and interprets the content streams. Writing and then reading
   gives the pages back.

`Options`, `Sequences` and `Numbers` hold what several of them share.

## Where code and documentation differ

The models follow the code.

- `src/font/atlas.cpp`: the comment at the top says that growth doubles the shorter axis, and
  `include/fxe/font/atlas.hpp` that a refusal means the page grew and still had no room. The code doubles
  only the height when the shelves overflow, so it can refuse while the width could still grow.
  `Atlas.Atlas.Reserve` states exactly which requests are met, by a condition on the page before the call
  (`Atlas.Atlas.Fits`, `Atlas.HasRoom`). `Atlas.RefusedThoughWidthCouldGrow` packs three glyphs into a new
  atlas, the last of which is refused although the same page at its largest width would take it;
  `Atlas.RefusalIsFinalIff` says exactly when a refusal means what is documented. The header also says that `reserve` writes zeros; it writes nothing, but the
  place it returns is proved blank.
- `src/core/text_document.cpp`: a batch is documented for sorted, non-overlapping edits. Out-of-range
  starts are clamped to a length that changes during the batch, so sorted edits alone do not make the
  batch a simultaneous substitution, nor can every accepted batch be undone by what it reports
  (`Batches.AcceptedButNotUndone`); `Batches.PromiseKeptIffEndsInside` and `Batches.UndoKeptIffEndsInside`
  give the exact condition.
- `src/debug/cdp_ws.cpp`: a final text frame inside an unfinished fragmented message is returned at once,
  although RFC 6455 section 5.4 forbids the interleaving; `Messages.InterleavedText` says exactly when the
  reader notices. The decoder accepts lengths that are not in the shortest form (section 5.2); the models do too.
- Two returns in `line_to_offset` (176-177 and 181-184) and the `total <= 0.0001` return in
  `emit_dashed_subpath` (1232-1235) are never taken, and the iteration guard of `triangulate_simple` never
  ends its loop. The proofs show this.
- `num` prints a negative number that rounds to zero as `-0`, as `Decimals.MinusZeroIff` says exactly; it reads
  back as zero.

## Model

| member | source | states |
|---|---|---|
| Document.TextDocument.constructor | src/core/text_document.cpp:98-102 | a new document is valid and spells its seed |
| Document.TextDocument.Length | src/core/text_document.cpp:110-112 | the length of the plain string |
| Document.TextDocument.LineCount | src/core/text_document.cpp:114-116 | one more than the newlines of the plain string |
| Document.TextDocument.Slice | src/core/text_document.cpp:118-142 | the clamped slice of the plain string, across any number of pieces |
| Document.TextDocument.CodeUnitAt | src/core/text_document.cpp:152-158 | the unit of the plain string, 0 past its end |
| Document.TextDocument.LineToOffset | src/core/text_document.cpp:160-187 | the offset after the newline that begins the line; both edge returns are shown unreachable |
| Document.TextDocument.OffsetToLine | src/core/text_document.cpp:189-202 | the count of newlines before the clamped offset |
| Document.TextDocument.LineRange | src/core/text_document.cpp:204-217 | where the line begins and where its text ends, without the newline |
| Document.TextDocument.LineTextOf | src/core/text_document.cpp:219-222 | the text of the line |
| Document.TextDocument.Replace | src/core/text_document.cpp:227-237 | the plain string with the clamped, ordered range substituted; the record of the edit; one revision |
| Document.TextDocument.CheckOrder | src/core/text_document.cpp:247-253 | true exactly for sorted, non-overlapping edits |
| Document.TextDocument.ApplyBatch | src/core/text_document.cpp:243-268 | accepted exactly when sorted; then text and records of right-to-left replacement and one revision; a rejected batch changes no field at all |
| Document.TextDocument.SearchLiteral | src/core/text_document.cpp:285-322 | the greedy leftmost matches from the offset up to the limit, folded when asked |
| Document.TextDocument.MakePiece | src/core/text_document.cpp:337-349 | the piece over a stretch of a buffer, its newline cache exact; sound unless it is empty |
| Document.TextDocument.PieceAt | src/core/text_document.cpp:351-366 | the binary search finds the piece that holds the offset |
| Document.TextDocument.SplitAt | src/core/text_document.cpp:368-382 | the offset becomes a piece boundary, and the text stays |
| Document.TextDocument.PieceStartingAt | src/core/text_document.cpp:384-397 | the binary search finds the first piece that begins at the offset or after it: at a boundary, the piece that begins there |
| Document.TextDocument.ReplaceInternal | src/core/text_document.cpp:399-431 | splitting, splicing and appending amount to a substitution in the plain string |
| Document.TextDocument.RebuildCum | src/core/text_document.cpp:433-441 | both prefix sums are exact |
| Lines.LineStartCount | src/core/text_document.cpp:160-202 | the line of a line's start is that line |
| Lines.LineHoldsOffset | src/core/text_document.cpp:160-202 | every offset lies between the start and the end of its line |
| Lines.JoinAllLines | src/core/text_document.cpp:204-222 | all line texts joined by newlines are the document |
| Lines.LinesAreUnbroken | src/core/text_document.cpp:204-222 | no line text holds a newline |
| Lines.AllLinesOfJoin | src/core/text_document.cpp:204-222 | conversely, the lines of joined newline-free texts are those texts |
| Lines.EveryNewlineListed | src/core/text_document.cpp:337-349 | every newline is in the cached list, at its rank |
| Pieces.LengthsIncrease | src/core/text_document.cpp:351-366 | prefix sums of sound pieces are strictly increasing |
| Edits.BatchSubstitutes | src/core/text_document.cpp:243-268 | a batch of in-range edits, applied right to left, is simultaneous substitution in original coordinates |
| Edits.RecordsAreOriginal | src/core/text_document.cpp:256-267 | every record of an in-range batch holds the original slice at its original range |
| Edits.UndoRestores | src/core/text_document.cpp:243-268 | the inverse of the records, shifted by the running length change, is accepted and restores the text |
| Batches.PromiseKeptIffEndsInside | src/core/text_document.cpp:243-268 | a sorted batch is simultaneous substitution, whatever it inserts, if and only if every range but the last ends inside the text |
| History.Play | src/core/text_document.cpp:227-268 | any run of replaces and batches keeps the document valid and spells the run of the plain string |
| Batches.UndoneIffRecordsFollow | src/core/text_document.cpp:243-268 | any batch, sorted or not, is undone by the inverse of its records if and only if the records do not overlap |
| Batches.UndoKeptIffEndsInside | src/core/text_document.cpp:243-268 | a sorted batch can be undone by its records, whatever it inserts, if and only if every range but the last ends inside the text |
| Batches.AcceptedButNotUndone | src/core/text_document.cpp:243-268 | a sorted batch that is accepted and whose records overlap |
| History.OftenUndoable | src/core/text_document.cpp:227-268 | every replace, and every batch whose ranges but the last end inside the text, reports records that do not overlap |
| History.StepUndone | src/core/text_document.cpp:227-268 | every command whose records do not overlap is undone by one accepted batch |
| History.SessionUndone | src/core/text_document.cpp:227-268 | undoing a whole session, last command first, restores the text it began with |
| Search.Scan | src/core/text_document.cpp:305-321 | the scan reports the greedy matches |
| Search.GreedyIsUnique | src/core/text_document.cpp:285-322 | there is only one greedy list: sorted, disjoint, each an occurrence, and no unreported occurrence free of an earlier match |
| Utf.Utf8ToUtf16 | src/core/text_document.cpp:14-50 | the decoding loop computes the decoding function, malformed bytes included |
| Utf.Utf16ToUtf8 | src/core/text_document.cpp:52-88 | the encoding loop computes the encoding function |
| Utf.DecodeEncode | src/core/text_document.cpp:14-88 | encoding any 16-bit units, unpaired surrogates included, and decoding gives them back |
| Utf.EncodeDecode | src/core/text_document.cpp:14-88 | decoding well-formed UTF-8 (RFC 3629 section 4) and encoding gives the bytes back |
| Utf.ReencodesIffCanonical | src/core/text_document.cpp:14-88 | exactly which byte strings survive decoding and encoding |
| Utf.DecodeShortens | src/core/text_document.cpp:14-50 | decoding any bytes gives at most one unit a byte |
| Frames.EncodeFrame | src/debug/cdp_ws.cpp:230-260 | the wire form of a final frame, with the shortest length form |
| Frames.ReadHeader | src/debug/cdp_ws.cpp:262-308 | the header, or that more is needed, or the fault, as a function of the buffer |
| Frames.DecodeFrameFromBuffer | src/debug/cdp_ws.cpp:262-336 | frame, error or need for more as the verdict says; only a decoded frame takes bytes from the buffer |
| Frames.MaskedTwice | src/debug/cdp_ws.cpp:253-258 | masking twice with one key gives the payload back |
| FrameLaws.VerdictStable | src/debug/cdp_ws.cpp:262-336 | a frame or an error stays what it is when more bytes follow |
| FrameLaws.DecodeWire | src/debug/cdp_ws.cpp:230-336 | a frame in any length form, with any key, followed by anything, decodes to itself and leaves exactly the rest, or gives the first fault that applies |
| FrameLaws.PrefixNeedsMore | src/debug/cdp_ws.cpp:262-336 | every strict prefix of an acceptable frame asks for more |
| FrameLaws.DecodedIsWire | src/debug/cdp_ws.cpp:262-336 | conversely, whatever decodes stood at the head of the buffer in some wire form |
| Reader.FrameReader.ReadText | src/debug/cdp_ws.cpp:370-421 | for any chunking, result, rest, reader state and replies are those of reading the whole stream at once |
| Reader.FrameReader.HandleFrame | src/debug/cdp_ws.cpp:389-419 | what one frame does to the reader and the socket, opcode by opcode |
| Messages.ReadMessage | src/debug/cdp_ws.cpp:370-421 | a message in any fragments, with pings and pongs between, is one read, and each ping gets one pong with its payload |
| Messages.ReadAllMessages | src/debug/cdp_ws.cpp:366-421 | successive reads return all messages in order and send all pongs in order |
| Messages.ReadTexts | src/debug/cdp_ws.cpp:370-421 | successive calls on any chunking are successive reads of the stream |
| Messages.ReadMessages | src/debug/cdp_ws.cpp:366-421 | from an idle reader and a stream of whole messages, in any chunks, as many calls as messages return exactly the messages, in order, and send exactly their pongs |
| Messages.InterleavedText | src/debug/cdp_ws.cpp:401-408 | a text frame inside an unfinished message is refused if and only if it is not final |
| Atlas.Atlas.constructor | src/font/atlas.cpp:18-24 | an empty valid page of the initial size, of as many bytes as its pixels take |
| Atlas.Atlas.ResetEmpty | src/font/atlas.cpp:26-33 | an empty valid page of at least one pixel and as many bytes as its pixels take, cursor at the padding |
| Atlas.Atlas.Clear | src/font/atlas.cpp:45-49 | an empty valid page and both generations advanced |
| Atlas.Atlas.Grow | src/font/atlas.cpp:56-83 | grows exactly when doubling changes the sizes and stays within the maximum; then the page has the doubled sizes and shows all it showed; else nothing changes |
| Atlas.Atlas.CopyInto | src/font/atlas.cpp:85-92 | the rectangle shows the bitmap, and every byte outside it is what it was |
| Atlas.Atlas.Reserve | src/font/atlas.cpp:94-125 | ends; is met if and only if there was room before the call, at the place computed from the page before the call, in bounds and apart from all others, with size, cursor and shelf as computed; a refusal moves no region and loses no pixel, but may have given up the rest of the current shelf |
| Atlas.Atlas.Attempt | src/font/atlas.cpp:98-124 | every retry strictly enlarges the page within the maximum, and changes neither whether nor where the request is met, nor what page it leaves |
| Atlas.Atlas.Pack | src/font/atlas.cpp:127-133 | packed if and only if there was room before the call; the page shows the bitmap at the returned place and everything packed before at its old place |
| Atlas.Atlas.RebuildFromLive | src/font/atlas.cpp:135-160 | on success the page shows exactly the non-empty live items, and every glyph knows its new place; on failure that holds of the items before the one that stopped it, which has no glyph, a bitmap of the wrong size, or no room |
| Atlas.RoomIff | src/font/atlas.cpp:56-125 | for any sizes, there is room if and only if glyph and shelf fit the largest page that doubling reaches, and the growth asked for does not overstep the maximum |
| Atlas.RoomWhenDoubling | src/font/atlas.cpp:56-125 | for sizes that double to the maximum, there is room if and only if the glyph fits the largest page and its shelf does |
| Atlas.RefusedThoughWidthCouldGrow | src/font/atlas.cpp:94-125 | three glyphs packed into a new atlas: the last is refused at half the largest width, at which the same page would take it |
| Atlas.RefusalIsFinalIff | include/fxe/font/atlas.hpp:20-24 | for any sizes, a refusal means that the largest page has no room if and only if that page has none, or the growth asked for stays within the maximum and the glyph, on the shelf it gets, does not lie too low |
| Atlas.GrownKeeps | src/font/atlas.cpp:56-83 | re-blitting a page onto a larger blank one keeps every packed region readable |
| Atlas.PlaceKeeps | src/font/atlas.cpp:94-125 | the place at the cursor is apart from all earlier ones and still blank |
| Atlas.CopyKeeps | src/font/atlas.cpp:85-92 | writing the last region disturbs no other |
| Pixels.Blit | src/font/atlas.cpp:85-92 | the row loop changes the rectangle to the bitmap and nothing else |
| Vertices.IdentityTransform | include/fxe/vertex.hpp:54-64 | the identity matrix leaves a vertex as it is |
| Vertices.Composes | include/fxe/vertex.hpp:54-64 | two transforms in turn are the transform by the product, for an affine first matrix |
| Vertices.ComposesIff | include/fxe/vertex.hpp:54-64 | they are, for every vertex, if and only if the first matrix is affine or the second does not translate |
| Patterns.FillStrip | include/fxe/vertex.hpp:98-105 | the loop adds exactly the strip windows onto the slots |
| Patterns.FillList | include/fxe/vertex.hpp:110-113 | the loop adds 0, 1, 2 and so on onto the slots |
| Patterns.FillFan | src/core/primitives.cpp:816-836 | the loop writes exactly the slots of the fan |
| Patterns.FillGrid | src/core/primitives.cpp:866-899 | the nested loops write exactly the slots of the quad grid |
| Patterns.Strip | include/fxe/vertex.hpp:94-105 | whole primitives over the strip's vertices |
| Patterns.GridBounded | src/core/primitives.cpp:866-899 | whole triangles over the grid's vertices |
| CommandBuffer.CommandBuffer.Allocate | include/fxe/command_buffer.hpp:128-138 | appended vertices and index slots; the other stream is untouched |
| CommandBuffer.CommandBuffer.WriteStrip | include/fxe/command_buffer.hpp:44-70 | well-formedness is kept; the strip is appended, counted from its first vertex |
| CommandBuffer.CommandBuffer.WriteList | include/fxe/command_buffer.hpp:51-63 | well-formedness is kept; the whole primitives of the list are appended |
| CommandBuffer.CommandBuffer.FillEllipse | src/core/primitives.cpp:816-836 | well-formedness is kept; a fan around the centre is appended |
| CommandBuffer.CommandBuffer.FillQuadRounded | src/core/primitives.cpp:622-666 | well-formedness is kept; a fan over the outline is appended |
| CommandBuffer.CommandBuffer.FillSphere | src/core/primitives.cpp:866-899 | well-formedness is kept; the grid is appended |
| CommandBuffer.CommandBuffer.FillSubpath | src/core/primitives.cpp:1096-1119 | a closing last point is dropped; well-formedness is kept; the outline is appended with its triangulation, or nothing |
| CommandBuffer.CommandBuffer.TransformAll | include/fxe/command_buffer.hpp:140-145 | every vertex is moved once; indices stay |
| CommandBuffer.CommandBuffer.Clear | include/fxe/command_buffer.hpp:147-152 | an empty well-formed buffer |
| CommandBuffer.CommandBuffer.Clone | src/core/command_buffer.cpp:7-14 | a fresh buffer with the same contents |
| CommandBuffer.CommandBuffer.Queue | src/core/command_buffer.cpp:52-122 | well-formedness is kept; the moved vertices and the rebased streams of the source are appended, whichever path is taken |
| Drawings.Play | include/fxe/command_buffer.hpp:44-152 | any run of emitters, transforms, clears and queued buffers, nested to any depth, keeps the buffer well formed and shows what the same run on plain lists of corners gives |
| Drawings.DrawingIsAdded | src/core/command_buffer.cpp:52-122 | without transforms and clears, a run adds the same picture to whatever was there |
| Drawings.MovingIsNesting | include/fxe/command_buffer.hpp:140-145 | transforming all of a drawing is drawing it into a buffer of its own and queueing that |
| Drawings.NestingComposes | src/core/command_buffer.cpp:52-122 | untinted buffers nested through two matrices show what one shows through their product, under the condition of `Vertices.ComposesIff` |
| CommandBuffer.QueueShows | src/core/command_buffer.cpp:52-122 | each stream then shows what it showed, followed by what the source shows, moved |
| CommandBuffer.IdentityMoves | src/core/command_buffer.cpp:81-94 | the fast path is the slow path |
| CommandBuffer.QueueThrough | src/core/command_buffer.cpp:52-122 | untinted queueing through two matrices in turn, under the condition of `Vertices.ComposesIff`, by way of a fresh buffer, appends the vertices and both index streams that queueing once with their product appends |
| CommandBuffer.AppendStream | src/core/command_buffer.cpp:98-121 | a rebased well-formed stream appended to a well-formed one is well formed |
| Triangulate.SignedArea | src/core/primitives.cpp:105-113 | the loop gives half the shoelace sum of the ring |
| Triangulate.FindEar | src/core/primitives.cpp:305-338 | the first ear, or that the ring has none |
| Triangulate.ClipArea | src/core/primitives.cpp:326-335 | dropping a corner takes exactly its triangle out of the ring's area |
| Triangulate.ClipBalances | src/core/primitives.cpp:304-341 | every clip keeps emitted area plus winding times ring area |
| Triangulate.ClipEars | src/core/primitives.cpp:299-341 | the loop ends with three corners or for want of an ear, never by its guard |
| Triangulate.TriangulateSimple | src/core/primitives.cpp:296-353 | three corners left: n-2 triangles with indices below n whose areas sum to the polygon's; otherwise the unclipped ring makes up the difference and has no ear; the indices are those of clipping the first ear each time |
| Triangulate.ConvexHasEar | src/core/primitives.cpp:288-353 | every ring of a polygon convex beyond the tolerance has an ear, so it is triangulated completely |
| Dashes.NormalizePattern | src/core/primitives.cpp:1209-1217 | the entries beyond the tolerance, in order |
| Dashes.PeriodOffsetIsRemainder | src/core/primitives.cpp:1236-1238 | the fixed-up truncated remainder lies in one period and is whole periods away from the offset |
| Dashes.SkipOffset | src/core/primitives.cpp:1239-1251 | the offset loop ends, and uses up the offset to within the tolerance |
| Dashes.WalkSegment | src/core/primitives.cpp:1256-1285 | the segment loop ends; its steps cover the segment; the dashes are exactly the steps in even entries |
| Dashes.EmitDashed | src/core/primitives.cpp:1219-1287 | nothing, a solid stroke, or the dashes of one run through the pattern over skipped offset and all segments |
| Dashes.SegmentCovered | src/core/primitives.cpp:1256-1285 | on a segment the steps are disjoint, in order, inside it, and sum to its length within the tolerance |
| Dashes.CornersOnlyAtEnds | src/core/primitives.cpp:1266-1277 | the conditions for a flat cap hold exactly for the first start and the last end on a segment |
| Dashes.RunsFitEntries | src/core/primitives.cpp:1239-1286 | no dash or gap, even around corners, exceeds its entry, and a finished one falls short by at most the tolerance |
| Dashes.DriftBounded | src/core/primitives.cpp:1239-1286 | the run never falls behind the ideal pattern and gains at most the tolerance with every entry |
| Dashes.StepsFitPattern | src/core/primitives.cpp:1239-1286 | every step lies in its own entry of the ideal repeated pattern, up to that gain |
| Decimals.Num | src/core/print_pdf.cpp:27-38 | three decimals without zeros at the end and without a bare point |
| Decimals.NumReads | src/core/print_pdf.cpp:27-38 | the printed text reads back as the number to three decimals |
| Decimals.MinusZeroIff | src/core/print_pdf.cpp:27-38 | a number is printed as `-0` if and only if it is negative and rounds to zero |
| Decimals.RoundedIsClose | src/core/print_pdf.cpp:27-38 | three decimals are within half a thousandth |
| Decimals.ReadPadded | src/core/print_pdf.cpp:222-227 | ten digits exactly, which read back as the offset |
| Words.ParseText | src/core/print_pdf.cpp:86-150 | lines of words can be told apart again |
| PageContent.EmitColor | src/core/print_pdf.cpp:45-50 | the line of operators that sets a colour |
| PageContent.EmitPoint | src/core/print_pdf.cpp:52-54 | the line of operators for one corner |
| PageContent.ContentForPage | src/core/print_pdf.cpp:86-150 | content exactly when every primitive has valid, untextured corners; otherwise the fault of the first that has not |
| PageShapes.PaintsThePage | src/core/print_pdf.cpp:86-150 | interpreting the content paints the buffer's triangles and then its lines, in order, each number to three decimals |
| Pdf.BuildPages | src/core/print_pdf.cpp:173-191 | every page's dictionary and content in their places, or the message of the first page that cannot be drawn |
| Pdf.WriteBody | src/core/print_pdf.cpp:205-215 | every recorded offset is where its object begins |
| Pdf.WriteFile | src/core/print_pdf.cpp:205-229 | header, objects, table and trailer as one text |
| Pdf.EmitPdf | src/core/print_pdf.cpp:161-233 | accepted exactly for a path, a page and drawable pages; each refusal with its message and no file |
| PdfReader.TableIsExact | src/core/print_pdf.cpp:205-229 | `startxref` gives the place of "xref", each 20-byte entry the place where its object begins, and there the object is |
| PdfReader.StreamReads | src/core/print_pdf.cpp:152-158 | the stated length is the content's, and "endstream" follows it |
| PdfReader.TrailerFound | src/core/print_pdf.cpp:217-229 | the trailer stands right after as many entries as the table's head announces |
| References.TreeRefs | src/core/print_pdf.cpp:173-198 | the page tree refers to the page dictionaries, in order, and to nothing else |
| References.LeafRefs | src/core/print_pdf.cpp:179-186 | a page dictionary refers to the page tree and to its own content |
| References.StreamRefs | src/core/print_pdf.cpp:86-158 | a content stream refers to nothing, whatever white space separates its words |
| References.TrailerRefs | src/core/print_pdf.cpp:228-229 | the trailer refers to the catalog |
| PdfDocument.ReferencesResolve | src/core/print_pdf.cpp:161-233 | every reference "n 0 R" in an object or in the trailer, across any white space, names an object of the file, and the table leads to that object |
| PdfDocument.DocumentReadsBack | src/core/print_pdf.cpp:161-233 | reading the file text, from its end along table and references, gives as many pages as were written, each with its primitives to three decimals |

## Left out

- 32-bit wrap-around: sizes, offsets and indices are unbounded naturals; documents, buffers and pages are assumed to fit.
- IEEE rounding, NaN and negative zero: coordinates, colours and dash lengths are exact reals; `isfinite` is always true of them.
- Listeners of the text document: only the revision counter is kept. `replace_utf8`, `slice_utf8` and `search_literal_utf8` are compositions of modelled operations.
- Vectors and strings that the source mutates in place are sequence-valued fields and variables: memory, capacity and aliasing are not modelled.
- Sockets, the HTTP handshake, SHA-1 and base64, and failing or partial sends: the socket is a list of chunks and a log.
- `std::lower_bound` is modelled as its binary search loop.
- Queueing a buffer into itself, the `queue_opt` backend path (it declines by default) and the render statistics.
- `Atlas::mutable_pixels`: an outside writer would break reading back by design. Padding and sizes are constants of the object.
- Vertex positions and colours that the emitters compute with trigonometry, gradients and textures are given to the model as vertices; the emitters' index patterns are modelled.
- Flattening of curves, joins and stroke geometry: a dash is its stretch of a segment and its two caps. Segment lengths are given.
- Dashes.EmitDashed: the offset is reduced by one period of the pattern, as in the code; for a pattern of odd length that is half a period of the drawn pattern, and no conformance with Canvas or SVG is claimed for it.
- PdfReader.TableIsExact: offsets of ten digits; a longer file overflows the entry format. The results of `PdfDocument` and `PdfReader.TrailerFound` have the same bound.
- File errors and stream positions in `emit_pdf`: the file is the text written, and the path only matters by being empty. A vertex counts as textured when its texture word is not zero.
- Text shaping, glyph lookup, blur, gradients, tab drawing, audio, texture and font registries, colour tables, screenshots and windowing: plumbing or foreign libraries next to the cores above.
