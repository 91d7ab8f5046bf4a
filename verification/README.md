# ZeruX OS: a verified model of its decoders, file system, display and HTML parser

A Dafny 4.11 model of five parts of ZeruX OS, with proofs about whole inputs, whole runs and every
reachable state. `dafny verify dfyconfig.toml` checks everything.

The source works by changing things step by step, so the model does too: the inflate state, the
Huffman tables, drawing surfaces, the dirty list, the screen, the compositor, the volume, the mounted
file system, the image builder and the parser are classes or arrays whose methods are proved against
functions of their inputs or of their old state. The laws are then proved about those functions.

**DEFLATE and PNG** (`Bits`, `Huffman`, `Deflate`, `Encoding`, `RoundTrip`, `Soundness`, `Inflate`,
`PngFilter`, `Png`). `Encoding` is an encoder for RFC 1951 written from its sections 3.2.2 to 3.2.7.
Its tokens are lengths and distances, spelled by the rules of the standard, and it shares nothing with
the decoder but the canonical codewords; the tables of the source are proved to agree with the rules.
`Deflate` says what the decoder does on a string of bits, and `Inflate` refines it with the byte-wise
bit buffer, the tables and the output array. Decoding inverts encoding (`RoundTrip`), everything that
is accepted is an encoding (`Soundness`), and every byte string has one. On top, the in-place PNG
un-filter inverts filtering, and a file written from pixels of any of the five kinds loads back with
their colours, whatever filters, block structure and chunk split were chosen.

**FAT32, its descriptors and its image builder** (`FatTable` to `FatRun`, `Counting`, `Chains`,
`Volume`, `Vfs`, `MakeImage`, `BuildImage`). `FatTable` shows the bytes of the two tables to be a map,
`Chains` states global ownership of clusters, `FatFile` and `FatWrite` show chains to be byte sequences, `FatSlots` and
`FatWalk` show directories to be finite maps, `FatTree` ties all of it into one tree of the volume,
and `FatSystem` proves every operation of the driver against that tree. `FatRun` makes a state machine
of it: any run of supported requests is a run of the abstract machine, disk-full paths included, no
cluster is lost or shared, and a file that is not touched keeps its name and its bytes. What is
supported is a hypothesis on the requests, not a test the driver makes: directories and files that are
open and still linked, names that fit 8.3, sizes below 2^32, and unlinking what can go without harm
(`FatAccount`). `MakeImage` builds an image as the Python tool does, and `BuildImage` reads every file
back through the driver.

**Drawing** (`Dirty`, `Line`, `Gfx`). Each primitive changes exactly the pixels of a per-pixel
definition and reports them; the line is within half a pixel of the true one.

**Display, compositor and window list** (`Display`, `DisplayRun`, `Scene`, `Compositor`, `DesktopRun`,
`Focus`, `Windows`). Partial repaint and partial copying agree with repainting and copying everything,
over whole runs and down to the bytes of each pixel in VRAM, as long as changes are flagged. `Focus`
says exactly what the frame after focusing, creating or destroying a window shows, none of which flags the windows
that change their title bars; `Windows` is the table and the order of windows that these act on.

**HTML** (`Dom`, `HtmlScan`, `HtmlParse`, `HtmlParser`, `HtmlRoundTrip`, `HtmlSkip`). The single-pass
parser over the pooled DOM is total and builds a proper shallow tree from any input, and parsing inverts printing.

Where a law joins a method and a function that specifies it, what both use in common (tables, letter
cases, colours) is stated once more by rule or by value, so that neither can drift alone.

Six things that one might expect are false of the code. Each is stated with an input and with the exact
condition under which the code does meet it:

- The parser's index stays within its input. It passes the length, although only by one, exactly when
  it meets a `<` that is the last character (`HtmlParse.IndexAtEnd`, with `HtmlParse.PassesEnd` as the
  input).
- A frame shows the desktop as repainted from scratch. `wm_focus_window`, `wm_create_window` and
  `wm_destroy_window` change stacking order and title bars without flagging the windows concerned. After
  focusing, a pixel is right exactly under the condition `Focus.KeepsPixel` on the list before the call
  (`Focus.FocusExactly`, `Focus.FocusFrame`); the whole picture is right, whatever the windows show,
  exactly if the window was in front already or neither it nor the one in front is visible
  (`Focus.FocusSafe`), and raising alone is harmless exactly if nothing visible in front overlaps the
  window (`Focus.RaiseSafe`). `Focus.DemoWrong` has the demo's two windows as the input; creating and
  destroying have their own conditions (`Focus.CreateExactly`, `Focus.DestroyExactly`).
- The symbol table of a Huffman code stays within its array. The array has 286 places
  (kernel/drivers/inflate.c:11,32), and a code overruns it exactly if it uses more symbols
  (`Inflater.OverrunsIff`); no dynamic block does (`Inflater.TablesFit`), every fixed block does
  (`Inflater.FixedOverruns`). The model's table for the fixed literal code has 288 places.
- Unlinking keeps every cluster accounted for. It does exactly for files, empty directories and dot
  entries without a cluster (`FatAccount.UnlinkExactly`, `FatSystem.FileSystem.Unlink`, with
  `BuildImage.UnlinkDot` as the input).
- Reading back a padded 8.3 name gives the upper-case name. It does exactly for names that fit
  (`FatName.NameRoundTrip`, with `FatName.NineLetters` as the input).
- Every file the image builder lays out can be found. The builder does not check that a directory has
  room; the files are all there, and nothing laid out before is lost, exactly if no directory has got
  more than sixteen entries (`BuildImage.Build`). `BuildImage.SeventeenthEntry` says what the
  seventeenth overwrites.

Where the code and its own comments disagree, the model follows the code: PNG pixels carry their alpha
in the top byte (the comment at kernel/drivers/png.c:216 has zero there), the symbol table is too small
for the fixed literal code (kernel/drivers/inflate.c:32 says it is big enough), and the image's second
table and data area lie where tools/mkfat32.py:50-52 computes them, not where lines 4 to 8 say.

## Model

| member | source | states |
|---|---|---|
| RoundTrip.InflateInvertsEncoding | kernel/drivers/inflate.c:234-261 | for every sequence of stored, fixed and dynamic blocks written by an encoder after RFC 1951 that shares no table with the decoder, tokens being real lengths and distances, and whatever bytes follow, decoding gives exactly the bytes the tokens stand for, or "output full" exactly when they do not fit |
| RoundTrip.EncodeThenInflate | kernel/drivers/inflate.c:234-261 | packing such a stream into bytes and decoding it gives it back, with exactly its bits consumed |
| RoundTrip.SomeCompressedForm | kernel/drivers/inflate.c:234-261 | every byte string has a compressed form that decodes to it, so the two laws above are about all data |
| RoundTrip.SomeStream | kernel/drivers/inflate.c:49-65 | any data can be split into stored blocks, at any bit position and behind any output |
| Soundness.InflateAcceptsExactly | kernel/drivers/inflate.c:234-261 | the converse: the decoder accepts an input if and only if it starts with an encoded stream whose bytes fit, and returns what that stream stands for |
| RoundTrip.BlocksComplete | kernel/drivers/inflate.c:242-259 | a run of blocks decodes to its bytes from any position and any output written before |
| Soundness.BlocksSound | kernel/drivers/inflate.c:242-259 | whatever a run of blocks decoded to, the bits read are the encoding of blocks with that meaning |
| RoundTrip.BlockComplete | kernel/drivers/inflate.c:251-257 | each block type decodes to what it encodes, with "output full" exactly when the capacity is exceeded |
| RoundTrip.CodesComplete | kernel/drivers/inflate.c:125-160 | the tokens of a block, literals and back-references, decode to their bytes under any pair of codes |
| RoundTrip.TokenComplete | kernel/drivers/inflate.c:125-160 | one token is read back from its codewords and extra bits and applied to the output |
| Soundness.CodesSound | kernel/drivers/inflate.c:125-160 | whatever the code loop accepted is a list of tokens that reach back only into written output |
| RoundTrip.HeaderComplete | kernel/drivers/inflate.c:182-231 | the header of a dynamic block, with its run-length coded lengths, decodes to the two code length vectors it encodes |
| Soundness.HeaderSound | kernel/drivers/inflate.c:182-231 | an accepted header is the encoding of some valid header with the tables returned |
| RoundTrip.RunsComplete | kernel/drivers/inflate.c:199-224 | any valid list of repeat codes expands to exactly the announced number of lengths |
| RoundTrip.StoredComplete | kernel/drivers/inflate.c:49-65 | a stored block skips to the byte boundary, checks the complement of the length and copies the data |
| RoundTrip.FixedCodes | kernel/drivers/inflate.c:163-177 | the fixed code lengths form a prefix code, so the fixed tables are always accepted |
| RoundTrip.LengthTables | kernel/drivers/inflate.c:112-117 | the length tables hold, code by code, the extra bits and first lengths of the rules of section 3.2.5 of RFC 1951 |
| RoundTrip.DistanceTables | kernel/drivers/inflate.c:118-124 | and so do the distance tables |
| RoundTrip.OrderTable | kernel/drivers/inflate.c:180 | the order of the code length codes is the transmission order of section 3.2.7 |
| RoundTrip.FixedTables | kernel/drivers/inflate.c:163-171 | the fixed code lengths are those of section 3.2.6 |
| RoundTrip.Spelling | kernel/drivers/inflate.c:136-147 | every length from 3 to 258 and every distance up to 32768 has a code, and only one, but for length 258, which has two |
| RoundTrip.CopyRepeats | kernel/drivers/inflate.c:152-157 | the periodic repetition is what copying byte by byte from that far back gives |
| Huffman.DecodeCodeword | kernel/drivers/inflate.c:93-107 | decoding the canonical codeword of a used symbol returns the symbol and consumes exactly its length, for every acceptable length vector and position |
| Huffman.DecodeSound | kernel/drivers/inflate.c:93-107 | whatever symbol the decoder returns, the bits it consumed are that symbol's codeword |
| Huffman.PrefixFree | kernel/drivers/inflate.c:69-107 | no used symbol's codeword is a prefix of another's |
| Huffman.FitsIffKraft | kernel/drivers/inflate.c:75-80 | the running space check succeeds exactly when the Kraft sum is at most one |
| Huffman.CanonicalSorted | kernel/drivers/inflate.c:82-88 | the table lists exactly the used symbols, sorted by length and then by symbol |
| Huffman.RankIndexes | kernel/drivers/inflate.c:86-88 | a symbol stands in the table at its rank among the symbols of its length |
| Inflater.Table.Construct | kernel/drivers/inflate.c:69-90 | the in-place bucket sort returns 0 exactly for code lengths that fit, and then the table is the canonical one |
| Inflater.Table.CountLengths | kernel/drivers/inflate.c:70-72 | the counters hold how many symbols have each length |
| Inflater.Table.CheckSpace | kernel/drivers/inflate.c:74-80 | true exactly for length vectors that do not over-subscribe the code space |
| Inflater.Table.Offsets | kernel/drivers/inflate.c:82-84 | where the symbols of each length begin in the sorted table |
| Inflater.Table.Place | kernel/drivers/inflate.c:86-88 | the symbol array becomes the canonical order |
| Inflater.State.GetBits | kernel/drivers/inflate.c:36-46 | for up to 24 bits the buffered reader returns the next bits of the whole input as a number, moves on by exactly that many and keeps fewer than 8 buffered; when the input runs out it has read all of it and the buffer is as before |
| Inflater.State.DecodeSymbol | kernel/drivers/inflate.c:93-107 | the bit-by-bit loop over the table agrees with decoding by codewords, errors included |
| Inflater.State.StoredBlock | kernel/drivers/inflate.c:49-65 | agrees with the stored block of the bit-level description, every error code included, and leaves the rest of the buffer alone |
| Inflater.State.CopyBack | kernel/drivers/inflate.c:152-157 | the byte-by-byte copy inside the output appends the periodic repetition of the last bytes when source and target overlap |
| Inflater.State.BackReference | kernel/drivers/inflate.c:136-157 | one back-reference: distance and capacity checks in the order of the code, then the copy |
| Inflater.State.CodedBlock | kernel/drivers/inflate.c:125-160 | the main decoding loop refines the block description for any two tables |
| Inflater.State.FixedBlock | kernel/drivers/inflate.c:163-177 | decodes with the fixed codes of section 3.2.6 of RFC 1951, in a table of 288 symbols, since the 286 of the source do not hold it (next rows) |
| Inflater.State.ReadClen | kernel/drivers/inflate.c:189-195 | the code length code, in its transmission order, each length below 8 |
| Inflater.State.ReadRuns | kernel/drivers/inflate.c:199-224 | fills exactly the announced number of lengths, each at most 15, or fails with the right code |
| Inflater.State.ReadTables | kernel/drivers/inflate.c:182-228 | both tables of a dynamic block are those of its header |
| Inflater.State.DynamicBlock | kernel/drivers/inflate.c:182-231 | a dynamic block: header, tables and coded data |
| Inflater.State.OneBlock | kernel/drivers/inflate.c:251-257 | the dispatch on the block type, including the invalid one |
| Inflater.InflateRaw | kernel/drivers/inflate.c:234-261 | on every input terminates with the exact length or the right negative code, reads and writes input and output within bounds, writes the output at the front and leaves the rest of the buffer untouched; the symbol table stays within bounds but for the fixed literal code |
| Huffman.ErrorNumbers | kernel/include/inflate.h:35-42 | the numbers of the failures, as callers see them |
| Inflater.OverrunsIff | kernel/drivers/inflate.c:82-88 | filling a symbol table writes past its end if and only if more symbols are used than it has places |
| Inflater.FewSymbols | kernel/drivers/inflate.c:174-177 | so a table for at most as many symbols as it has places never does |
| Inflater.TablesFit | kernel/drivers/inflate.c:226-228 | and the tables of a dynamic block, whatever its header, stay within the 286 places of the source |
| Inflater.FixedOverruns | kernel/drivers/inflate.c:163-177 | the fixed literal code does not: its symbols 254 and 255 are written to places 286 and 287, so a table for it needs 288; the fixed distance code fits |
| PngFilter.PaethIsNearest | kernel/drivers/png.c:30-38 | the predictor is the neighbour nearest to left + upper - upper-left, with ties in that order |
| PngFilter.PredictorsAre | kernel/drivers/png.c:196-206 | the five predictions: nothing, left, up, the average rounded down, and the nearest of the three neighbours |
| PngFilter.UnfilterInvertsFilterRow | kernel/drivers/png.c:188-214 | un-filtering inverts filtering of one row for each of the five filters and any pixel size |
| PngFilter.UnfilterInvertsFilter | kernel/drivers/png.c:188-214 | the same for whole images with any choice of filter per row (section 6 of RFC 2083) |
| PngFilter.UnfilterRowInPlace | kernel/drivers/png.c:191-213 | the inner loop, which reads neighbours it has already restored, gives the restored row; it fails exactly on a filter type above 4 |
| PngFilter.UnfilterInPlace | kernel/drivers/png.c:188-214 | the buffer becomes the restored image where it stands, or the call fails exactly when some row has an invalid filter |
| Png.PassesAgree | kernel/drivers/png.c:78-168 | the number of bytes counted by the first chunk pass is the number collected by the second |
| Png.PassesRead | kernel/drivers/png.c:78-168 | however the compressed stream was split into chunks, both passes see their exact concatenation and stop at IEND |
| Png.ScanChunks | kernel/drivers/png.c:78-114 | the first pass: header fields, palette, total, and when to give up |
| Png.CollectIdat | kernel/drivers/png.c:154-168 | the second pass fills a buffer of the counted size exactly |
| Png.ToSurface | kernel/drivers/png.c:216-253 | every pixel of the surface gets the colour of its samples |
| Png.Convert | kernel/drivers/png.c:225-250 | one pixel: its samples, or the palette colour of its index, as alpha, red, green and blue in one number |
| Png.TypeSamples | kernel/drivers/png.c:131-140 | each colour type has as many samples a pixel as the pixels of that type: one grey, three colours, one index, grey and alpha, or colours and alpha |
| Png.ShadeIs | kernel/drivers/png.c:223-250 | the bytes of a pixel turn into the colour the pixel stands for, black for an index outside the palette, opaque without an alpha sample |
| Png.LoadsOnly | kernel/drivers/png.c:60-125 | whatever file is accepted has the signature and a header chunk with that width and height, each from 1 to 4096 |
| Png.PngLoad | kernel/drivers/png.c:40-259 | the loader agrees with the loading function on every file, down to the colours of the pixels |
| Png.PngRoundTrip | kernel/drivers/png.c:40-259 | for every image up to 4096 by 4096 of grey, coloured, indexed or transparent pixels, every choice of filters, every DEFLATE encoding and every chunk split, loading the written file gives exactly the colour of each pixel |
| Dirty.DirtyList.Mark | kernel/drivers/dirty_rect.c:47-75 | the on-screen part of the rectangle becomes covered, nothing covered is lost, every stored rectangle stays on the screen; the list turns to full screen only when its 64 slots were used up |
| Dirty.DirtyList.Clip | kernel/drivers/dirty_rect.c:51-56 | clipping keeps exactly the on-screen points |
| Dirty.DirtyList.MarkAll | kernel/drivers/dirty_rect.c:23-26 | everything becomes covered |
| Dirty.DirtyList.Count | kernel/drivers/dirty_rect.c:77-79 | the caller's loop over that many rectangles sees the whole cover: a point is covered exactly if one of the first n listed rectangles has it, and n is 0 only in full-screen mode or when nothing is covered |
| Dirty.DirtyList.Get | kernel/drivers/dirty_rect.c:81-85 | the rectangle at that index, which lies on the screen; false exactly in full-screen mode and past the end |
| Dirty.DirtyList.Reset | kernel/drivers/dirty_rect.c:87-90 | nothing remains covered |
| Dirty.MergeCovers | kernel/drivers/dirty_rect.c:38-45 | a merged rectangle covers both parts |
| Dirty.UnionLeast | kernel/drivers/dirty_rect.c:38-45 | and any rectangle that covers both covers the merged one, so it is the smallest |
| Dirty.TouchMeans | kernel/drivers/dirty_rect.c:32-36 | rectangles are merged exactly if they share a point, edges included |
| Dirty.CoverKept | kernel/drivers/dirty_rect.c:60-66 | growing one rectangle of the list loses no covered point |
| Line.WithinHalfPixel | kernel/drivers/gfx2d.c:71-94 | every plotted point lies within half a pixel of the exact line |
| Line.PointsDiffer | kernel/drivers/gfx2d.c:71-94 | the plotted points are max(dx, dy) + 1 different ones |
| Line.LineEnds | kernel/drivers/gfx2d.c:71-94 | the line starts at one end point and ends at the other, without overshooting |
| Line.NextOffset | kernel/drivers/gfx2d.c:87-92 | the error test decides exactly when the rounded minor coordinate grows |
| Gfx.LineStep | kernel/drivers/gfx2d.c:84-92 | the two error tests of the loop together move to the next point of the rounded line, in all eight octants |
| Gfx.Surface.DrawLine | kernel/drivers/gfx2d.c:71-94 | changes exactly the clipped points of that line, and every changed pixel is on record as dirty |
| Gfx.Surface.SetPx | kernel/drivers/gfx2d.c:22-33 | one pixel inside the clip changes, and is tracked; nothing else does |
| Gfx.Surface.Track | kernel/drivers/gfx2d.c:38-49 | the dirty box grows to the point and loses none |
| Gfx.Surface.MarkIfScreen | kernel/drivers/gfx2d.c:51-60 | on the screen surface the rectangle goes to the dirty list, elsewhere nothing happens |
| Gfx.Surface.FillRect | kernel/drivers/gfx2d.c:96-117 | exactly the pixels in both rectangle and clip get the colour, and are reported |
| Gfx.Surface.FillCircle | kernel/drivers/gfx2d.c:154-166 | exactly the clipped lattice points with px^2 + py^2 <= r^2 get the colour |
| Gfx.DiscRow | kernel/drivers/gfx2d.c:157-164 | a row of the disc is the interval that the shrinking half-width gives |
| Gfx.Surface.Blit | kernel/drivers/gfx2d.c:281-313 | exactly the pixels in the clip whose source lies in the other surface are copied, each from the right source pixel |
| Gfx.Surface.BlitRect | kernel/drivers/gfx2d.c:286-298 | all the clipping of a blit together keeps exactly the points in target, clip and source bounds |
| Gfx.Surface.SetClip | kernel/drivers/surface.c:60-79 | the clip shrinks to exactly its intersection with the rectangle and stays inside the surface |
| Gfx.Surface.ResetClip | kernel/drivers/surface.c:52-58 | the clip is the whole surface again |
| Display.Screen.CursorPaint | kernel/drivers/vbe.c:225-242 | the shadow buffer gets the cursor and every pixel under it is saved |
| Display.Screen.CursorRestore | kernel/drivers/vbe.c:244-254 | saved pixels come back, the others stay |
| Display.ArrowDrawn | kernel/drivers/vbe.c:194-242 | the cursor is a white arrow with a black outline, given by its edges; every other pixel keeps its colour |
| Display.Screen.CopyPixel | kernel/drivers/vbe.c:271-283 | the three or four bytes of a pixel go to their place in the row, so that reading them back lowest first gives the colour; no other pixel changes, nor the bytes behind the row |
| Display.Screen.Flush | kernel/drivers/vbe.c:259-286 | exactly the on-screen part of the rectangle is copied to VRAM, in 24- and 32-bit modes and for any row pitch |
| Display.Screen.Present | kernel/drivers/framebuffer.c:69-84 | the dirty list is empty afterwards and VRAM is still in step outside the cursor |
| Display.Screen.Refresh | kernel/drivers/vbe.c:288-329 | afterwards the bytes of all of VRAM read back as the shadow buffer under the cursor, exactly so for colours that fit the mode, although only dirty parts and two cursor footprints were copied; the shadow buffer is unchanged |
| DisplayRun.Step | kernel/drivers/vbe.c:288-329 | each event keeps VRAM in step outside the dirty cover and changes the drawn picture as its pixel function says; events are fills, lines, discs, blits, clip changes and any other write of pixels within a rectangle that is marked |
| DisplayRun.Run | kernel/drivers/vbe.c:288-329 | over any interleaving of those writes, presenting and refreshing: the shadow buffer is what drawing alone makes of it pixel by pixel, and after a refresh the bytes of VRAM read back as exactly that under the cursor |
| Scene.PaintedByTop | kernel/gui/compositor.c:195-209 | in the from-scratch picture the topmost window that paints a pixel decides it |
| Scene.UntouchedPixel | kernel/gui/compositor.c:113-174 | when all changes are flagged, a pixel outside everything flagged has the same colour in both pictures |
| Compositor.Extend | kernel/gui/compositor.c:98-107 | the damage box covers what it covered and the new rectangle, and an empty rectangle adds nothing |
| Compositor.ExtendLeast | kernel/gui/compositor.c:98-107 | and no more than the smallest box does |
| Compositor.OutsideDamage | kernel/gui/compositor.c:140-174 | given the snapshots, a pixel outside the damage is outside everything flagged, before and after |
| Compositor.PictureOutside | kernel/gui/compositor.c:126-174 | outside the damage the whole picture, taskbar included, is the one on the screen |
| Compositor.FlaggedIsCleared | kernel/gui/compositor.c:195-203 | a flagged visible window always meets the damage, so its flag is cleared |
| Compositor.ClearedExactly | kernel/gui/compositor.c:195-203 | the windows whose flags are cleared are exactly the visible ones that share a pixel with the damage |
| Compositor.Compositor.DamageOfWindows | kernel/gui/compositor.c:144-165 | pass 1 covers what every window on the list damages, and adds nothing else |
| Compositor.Compositor.DamageOfGone | kernel/gui/compositor.c:169-174 | pass 2 covers windows that are gone, and nothing else, and forgets their snapshots |
| Compositor.Compositor.FindDamage | kernel/gui/compositor.c:113-174 | both passes: the damage is exactly that of the two together, and when every change was flagged, the picture has not changed outside it |
| Compositor.Compositor.SaveSnapshots | kernel/gui/compositor.c:206-208 | the snapshots become the rectangles of this frame's windows |
| Compositor.Compositor.Repaint | kernel/gui/compositor.c:188-211 | under the clip, painting back to front only what meets the damage gives the full picture there and nothing elsewhere |
| Compositor.Compositor.Redraw | kernel/gui/compositor.c:178-217 | clip, repaint and report: every changed pixel is passed to the dirty list |
| Compositor.Compositor.Compose | kernel/gui/compositor.c:109-218 | each frame repaints exactly the damage, flagged changes or not; when all were flagged, the back buffer then equals the whole desktop repainted from scratch; every changed pixel is due for VRAM, and flags of visible windows are cleared |
| DesktopRun.OneFrame | kernel/gui/compositor.c:109-218 | composing and refreshing one frame puts that picture, with the cursor on top, on the screen |
| DesktopRun.Run | kernel/gui/compositor.c:109-218 | over any run of flagged frames from the first on, what VRAM shows after a frame is its scene repainted from scratch under the cursor |
| Focus.RaiseExactly | kernel/gui/window.c:48-61 | raising a window keeps the colour of a pixel if and only if the window does not paint it or the topmost window there already has its colour |
| Focus.RaiseSafe | kernel/gui/window.c:48-61 | raising keeps the whole picture, whatever the windows show, if and only if no visible window in front overlaps it |
| Focus.RefocusExactly | kernel/gui/window.c:217-224 | a change of focus alone shows exactly where the title bar back of a window that lost or got the focus is seen |
| Focus.FocusExactly | kernel/gui/window.c:217-224 | focusing a window keeps the colour of a pixel if and only if a condition on the list before the call holds: what is painted there now, and whether it is the back of the title bar that loses the focus |
| Focus.FocusSafe | kernel/gui/window.c:217-224 | focusing keeps the whole picture, whatever the windows show, if and only if the window is in front already or neither it nor the one in front is visible |
| Focus.DemoWrong | kernel/gui/window.c:377-396 | on the two windows of the demo, focusing the one behind changes pixels in both title bars and in the overlap |
| Focus.CreateExactly | kernel/gui/window.c:63-107 | outside a new window a pixel keeps its colour if and only if the title bar that loses the focus is not seen there |
| Focus.DestroyExactly | kernel/gui/window.c:130-155 | outside a window that goes a pixel keeps its colour if and only if no title bar that gets the focus is seen there |
| Focus.FocusFrame | kernel/gui/compositor.c:109-218 | the frame after focusing a window repaints nothing, so a pixel is right afterwards if and only if that condition holds |
| Focus.CreateFrame | kernel/gui/compositor.c:109-218 | the frame after a window was created is right exactly in its rectangle, in the taskbar and where no focus change shows |
| Focus.DestroyFrame | kernel/gui/compositor.c:109-218 | and so is the frame after one was destroyed |
| Focus.StaysTopFocused | kernel/gui/window.c:63-224 | creating, focusing and destroying keep the focus exactly on the window in front |
| Windows.WindowManager.constructor | kernel/gui/window.c:32-46 | no window, and none in use |
| Windows.WindowManager.Remove | kernel/gui/window.c:48-56 | takes the first occurrence out of the order, which otherwise stays |
| Windows.WindowManager.Raise | kernel/gui/window.c:58-61 | puts the window at the end of the order without it |
| Windows.WindowManager.Create | kernel/gui/window.c:63-107 | fails exactly for a size not above the title bar, a full table or no memory; otherwise the list gets the new window in front, focused, in the first free slot, and the whole screen is due for copying |
| Windows.WindowManager.Destroy | kernel/gui/window.c:130-155 | the window leaves the list, the one then in front gets the focus, and its slot is free; an id not in use changes nothing |
| Windows.WindowManager.Focus | kernel/gui/window.c:217-224 | the list becomes that of the focus law above: the window in front and alone focused; an id not in use changes nothing |
| FatTable.EntryWritten | kernel/fs/fat32.c:129-143 | writing an entry updates the table as a map at that cluster only, leaves the data area alone and keeps both copies equal |
| FatTable.RawEntryWritten | kernel/fs/fat32.c:129-143 | the entry's top four bits are kept and every other entry keeps all of its bits |
| FatTable.EntriesApart | kernel/fs/fat32.c:119-143 | different clusters have disjoint entry bytes |
| FatTable.EntryPlace | kernel/fs/fat32.c:119-122 | the entries follow each other without gaps, four bytes each |
| FatTable.VolumeParts | kernel/fs/fat32.c:720-748 | the volume is the reserved sectors, the tables, the sectors of all clusters one after the other, and less than one cluster left over |
| FatTable.DataIndexApart | kernel/fs/fat32.c:175-177 | different clusters have different sectors |
| Volumes.Volume.ReadEntry | kernel/fs/fat32.c:119-127 | the low 28 bits of the little-endian entry |
| Volumes.Volume.WriteEntry | kernel/fs/fat32.c:129-143 | the byte-level write is the update of the table map, with mirror and data intact |
| Volumes.Volume.AllocCluster | kernel/fs/fat32.c:147-164 | 0 exactly when no cluster of the volume is free, for any position of the hint; otherwise a free cluster, now end-marked |
| Volumes.Volume.FreeChain | kernel/fs/fat32.c:166-173 | clears exactly the clusters of the chain |
| Volumes.LimitEnough | kernel/fs/fat32.c:168 | the iteration limit of the loops never cuts a chain short |
| Chains.ChainLength | kernel/fs/fat32.c:166-173 | a chain is no longer than there are clusters |
| Chains.ChainUnique | kernel/fs/fat32.c:205-298 | a chain is determined by its first cluster |
| Chains.Allocated | kernel/fs/fat32.c:147-164 | allocation keeps global ownership: the new cluster is a chain of its own |
| Chains.Linked | kernel/fs/fat32.c:395-415 | linking a chain behind another keeps global ownership |
| Chains.Freed | kernel/fs/fat32.c:166-173 | freeing a chain leaves exactly the other chains |
| FatFile.ZeroCluster | kernel/fs/fat32.c:179-186 | the cluster reads as zeros and no other cluster changes |
| FatFile.ReadCluster | kernel/fs/fat32.c:360-372 | the inner reading loop, for any sectors per cluster: what is wanted up to the end of the cluster |
| FatFile.WriteCluster | kernel/fs/fat32.c:420-436 | the inner writing loop: the bytes land at their place in the cluster, all other bytes stay |
| FatFile.ReadFile | kernel/fs/fat32.c:344-377 | the buffer receives exactly the requested part of the file, as far as the file reaches |
| FatWrite.Grow | kernel/fs/fat32.c:404-413 | one more zeroed cluster at the end of the chain, or nothing changed and the volume full |
| FatWrite.Navigate | kernel/fs/fat32.c:402-415 | reaches the cluster of the offset, extending the chain with zeros on the way; fails only on a full volume |
| FatWrite.WriteFrom | kernel/fs/fat32.c:417-447 | the writing loop stops early only on a full volume, and writes the data at its offset in the chain |
| FatWrite.WriteData | kernel/fs/fat32.c:382-447 | the whole write on the chain, including a file without a cluster, with global ownership kept |
| FatWrite.FileWritten | kernel/fs/fat32.c:382-454 | a write to the chain is a write to the file as a byte sequence, with a zero gap and zeros beyond the size |
| FatWrite.ReadBack | kernel/fs/fat32.c:344-454 | what was written reads back; around it the file is as it was, with zeros in the gap |
| FatName.Compare | kernel/fs/fat32.c:62-65 | zero exactly for names equal up to case |
| FatName.FoldedAlike | kernel/fs/fat32.c:57-60 | names folded to upper case are equal exactly if the names differ at most in case, letter by letter |
| FatName.Folded | kernel/fs/fat32.c:57-60 | a folded name has no letter in lower case and differs from the name in nothing but case |
| FatName.PaddedForm | kernel/fs/fat32.c:99-114 | the padded form byte by byte: at most eight bytes up to the first dot and three behind it, no letter in lower case, and spaces |
| FatName.NameTo83 | kernel/fs/fat32.c:99-114 | the padded form of base and extension |
| FatName.ParseName | kernel/fs/fat32.c:85-97 | the name in a directory entry |
| FatName.NameRoundTrip | kernel/fs/fat32.c:85-114 | parsing inverts padding up to upper case if and only if the name fits 8.3 |
| BuildImage.UnlinkDot | kernel/fs/fat32.c:669-705 | an input where it does not: unlinking "." of BIN on an image just built |
| FatName.NineLetters | kernel/fs/fat32.c:85-114 | the input where it fails: of nine letters only eight come back |
| FatName.SamePadded | kernel/fs/fat32.c:85-114 | two names that fit have the same padded form exactly when they differ at most in case |
| FatSlots.SearchName | kernel/fs/fat32.c:205-298 | a walk by name finds the first live entry of that name and fails only if there is none |
| FatSlots.SearchRoom | kernel/fs/fat32.c:205-298 | a walk for room finds the first free slot and fails only if there is none |
| FatSlots.SearchIndex | kernel/fs/fat32.c:205-298 | walking by index lists the live entries in order and then stops |
| FatSlots.LiveOnce | kernel/fs/fat32.c:205-298 | that list has every live entry exactly once |
| FatSlots.PassedOver | kernel/fs/fat32.c:235-242 | walks pass over free slots, long-name parts and volume labels, and over nothing else |
| FatSlots.DirectoryBit | kernel/fs/fat32.c:482-500 | an entry is a directory exactly if bit 4 of its attribute byte is set |
| FatSlots.ListedName | kernel/fs/fat32.c:205-298 | a name leads to a slot's cluster exactly if that slot is none of these and its name is the given one in whatever case |
| FatSlots.EntryFields | kernel/fs/fat32.c:580-592 | the 32 bytes of a new entry, field by field |
| FatSlots.MapInsert | kernel/fs/fat32.c:300-310 | an entry written to a free slot inserts its name into the directory map |
| FatSlots.MapRemove | kernel/fs/fat32.c:265-271 | marking an entry deleted removes its name from the map |
| FatSlots.MapReplace | kernel/fs/fat32.c:312-339 | rewriting an entry under the same name changes only what the name leads to |
| FatSlots.MapZeros | kernel/fs/fat32.c:279-285 | slots added by extending a directory hold nothing |
| FatSlots.TrimmedPut | kernel/fs/fat32.c:225-233 | filling the first free slot leaves nothing live past the end mark |
| FatWalk.ScanSector | kernel/fs/fat32.c:225-273 | the loop over the sixteen entries of a sector agrees with the search over the slots |
| FatWalk.ScanCluster | kernel/fs/fat32.c:212-275 | so does the loop over the sectors of a cluster |
| FatWalk.Lookup | kernel/fs/fat32.c:205-298 | the whole walk by name or index is the search over the directory's slots, and returns the entry's bytes |
| FatWalk.ReplaceSlot | kernel/fs/fat32.c:265-271 | writing back a sector replaces exactly one slot of the directory |
| FatWalk.GrowDirectory | kernel/fs/fat32.c:281-286 | a directory gets one zeroed cluster, or nothing changes on a full volume |
| FatWalk.AddEntry | kernel/fs/fat32.c:300-310 | the entry goes to the first free slot, if need be in a new cluster; fails with nothing changed only on a full volume |
| FatTree.EnteredShape | kernel/fs/fat32.c:567-667 | entering a new file or directory keeps the volume's tree: every chain has one entry and every entry its chain |
| FatTree.RemovedShape | kernel/fs/fat32.c:669-705 | erasing the entry of a file or an empty directory together with its chain keeps the tree |
| FatTree.RewrittenShape | kernel/fs/fat32.c:312-339 | updating the size in a file's entry keeps the tree |
| FatTree.StoredStep | kernel/fs/fat32.c:382-454 | changing one chain leaves what every other chain stores |
| FatFs.NamedEntry | kernel/fs/fat32.c:580-590 | the entry made for a supported name is found again under that name, in any case |
| FatFs.RolledBack | kernel/fs/fat32.c:591-594 | giving back the new cluster when the directory has no room restores the table exactly |
| FatSystem.UpdateEntry | kernel/fs/fat32.c:312-339 | sets size and first cluster of exactly that entry |
| FatSystem.FileSystem.Create | kernel/fs/fat32.c:567-598 | inserts a new empty file into the directory map, returns an existing one of that name in whatever case, or fails with nothing changed when at most one cluster was free |
| FatSystem.FileSystem.Mkdir | kernel/fs/fat32.c:600-667 | the same for a new directory, whose map holds exactly its two dot entries |
| FatSystem.FileSystem.Unlink | kernel/fs/fat32.c:669-705 | for any entry: fails exactly if the name is not there, else frees its chain and cuts off open nodes; every cluster in use still belongs to one entry's chain if and only if the entry is a file, an empty directory or a dot entry without a cluster, and then exactly that name is gone |
| FatSystem.FileSystem.Open | kernel/fs/fat32.c:482-522 | the node of the entry of that name in whatever case, reused or made; fails exactly if the name is not there or 64 nodes are in use; the tree is unchanged |
| FatSystem.FileSystem.ReadDir | kernel/fs/fat32.c:524-545 | the index-th live entry, and a failure exactly past the last |
| FatSystem.FileSystem.Read | kernel/fs/fat32.c:344-377 | the requested part of the open file's bytes |
| FatSystem.FileSystem.Write | kernel/fs/fat32.c:382-454 | the open file's bytes become those of a write to a byte sequence; every other file and every directory map is unchanged; short only on a full volume |
| FatRun.Step | kernel/fs/fat32.c:382-705 | each supported request does to the tree of files and directories what the abstract machine says, disk-full and missing names included |
| FatRun.CaseBlind | kernel/fs/fat32.c:382-705 | each request is supported and does the same in whatever case its name is written |
| FatRun.Run | kernel/fs/fat32.c:382-705 | any run of supported requests, disk-full paths included, is a run of that machine; at its end the clusters in use are exactly those of the root and the live entries, each in one chain with one entry, and all can be reached from the root |
| FatRun.RunKeepsFile | kernel/fs/fat32.c:382-705 | over any run that does not write to or unlink a file, its name still leads to it and it holds the same bytes |
| FatAccount.AllAccounted | kernel/fs/fat32.c:147-173 | the invariant means no leak and no cross-link |
| FatAccount.UnlinkExactly | kernel/fs/fat32.c:669-705 | erasing an entry and freeing the chain behind it keeps that if and only if the entry is a file, an empty directory, or a dot entry without a cluster; the driver does it for every entry |
| FatRun.Reach | kernel/fs/fat32.c:205-298 | every chain in use is reached from the root by a path of directory entries |
| Vfs.Descriptors.Alloc | kernel/fs/vfs.c:277-297 | the lowest free descriptor, at offset 0 |
| Vfs.Descriptors.Read | kernel/fs/vfs.c:318-329 | the next bytes of the file, and the offset moves on by their number |
| Vfs.Descriptors.Write | kernel/fs/vfs.c:331-342 | what is written continues at the descriptor's offset |
| Vfs.Descriptors.ReadPieces | kernel/fs/vfs.c:318-329 | reads of any sizes one after the other concatenate to what one large read would give |
| Vfs.WindowThen | kernel/fs/vfs.c:318-329 | two requests in a row give what one for the sum gives |
| MakeImage.BootParses | tools/mkfat32.py:21-48 | the driver's reading of the boot sector is the layout the builder uses |
| MakeImage.GeometryFields | kernel/fs/fat32.c:728-742 | each field of the layout is read from its own bytes of the boot sector |
| MakeImage.BootFields | tools/mkfat32.py:22-40 | the boot sector up to the cluster of the root: jump, name, sizes, media byte, geometry and hidden sectors, each at its offset |
| MakeImage.BootLabels | tools/mkfat32.py:41-48 | and from there on: information sector, backup, identifier, labels, signature, and zeros between them |
| MakeImage.StartEntries | tools/mkfat32.py:71-102 | the first entries: BIN as a directory at cluster 3, and in it "." leading there and ".." with cluster 0 |
| MakeImage.ClustersNeeded | tools/mkfat32.py:106-108 | a file gets as few clusters as hold it, and at least one |
| MakeImage.Builder.constructor | tools/mkfat32.py:50-102 | the empty image: root and BIN directory, tables mirrored, everything else unused |
| MakeImage.LayFile | tools/mkfat32.py:120-130 | the loop lays a row of linked clusters with the data, zero-padded, in both tables |
| MakeImage.RowFile | tools/mkfat32.py:120-130 | such a row stores exactly the file's bytes |
| MakeImage.Builder.AddFile | tools/mkfat32.py:104-159 | for any name and directory, full or not: false, with nothing changed, exactly when the clusters do not suffice; else the tables, the data area and the counters become exactly those of the chain, the data and one entry put at its computed place; with room and a new name the file enters the tree under its name with its data |
| MakeImage.PutSlot | tools/mkfat32.py:132-153 | the entry is written to its computed place, in whichever cluster that is; tables and everything else stay |
| MakeImage.SlotReady | tools/mkfat32.py:132-153 | for the sixteen slots of the directory's cluster that is exactly one slot of the directory |
| BuildImage.ClustersAfter | tools/mkfat32.py:104-159 | what adding a file does to any cluster in use before: nothing, but for the one where the entry goes |
| BuildImage.PastRoom | tools/mkfat32.py:141-153 | an entry past the sixteenth does not get into its directory, so the driver does not find its name there |
| BuildImage.SeventeenthEntry | tools/mkfat32.py:141-153 | the seventeenth entry of the root overwrites the first slot of BIN, which was "."; that of BIN overwrites the first 32 bytes of cluster 4, the first file laid out |
| BuildImage.CompleteFits | tools/mkfat32.py:17-159 | if every added file can be found and read and the first entries are in place, no directory has got more than sixteen entries |
| BuildImage.BuiltComplete | tools/mkfat32.py:17-159 | and as long as none has, they can |
| BuildImage.Build | tools/mkfat32.py:17-159 | for any list of files with distinct names: every added file can be found and read and nothing of the empty image is lost if and only if no directory got more than sixteen entries; all are added when the clusters suffice |
| BuildImage.Mount | kernel/fs/fat32.c:720-748 | the driver mounts the built image and sees exactly the tree that was built, with its ownership and mirror invariants |
| BuildImage.Fetch | kernel/fs/fat32.c:506-522 | a file is found by name on a mounted volume and read as a whole |
| BuildImage.BuildThenRead | tools/mkfat32.py:104-159 | what the driver reads back from a built image is the file byte for byte, and every file is found when clusters and slots suffice |
| Dom.LookupName | apps/aurora/dom.c:153-161 | looking up the printed name of any known tag gives the tag |
| Dom.LookupExactly | apps/aurora/dom.c:53-161 | a name gives an element's tag exactly if it is the tag's name or one of its other names, such as strong for b or wbr for br; no name gives a text node |
| Dom.Pool.NewNode | apps/aurora/dom.c:17-32 | the next node of the pool, unlinked; fails exactly when 512 are in use |
| Dom.Pool.AppendChild | apps/aurora/dom.c:34-46 | the first-child and next-sibling links are again those of the document with the new child last |
| Dom.ChildAppended | apps/aurora/dom.c:34-46 | changing one link, at the parent or at its last child, is enough |
| Dom.NodeAdded | apps/aurora/dom.c:17-32 | a new node disturbs no link |
| HtmlScan.MatchesCi | apps/aurora/html_parser.c:36-47 | the text there begins with the needle up to the case of letters, within the input |
| HtmlScan.FoldedName | apps/aurora/dom.c:131-141 | a name folded to lower case differs from it in nothing but the case of letters |
| HtmlScan.SkipUntil | apps/aurora/html_parser.c:49-59 | behind the next occurrence, or at the end |
| HtmlScan.DecodeNumeric | apps/aurora/html_parser.c:62-101 | a numeric entity, decimal or hexadecimal: character and length |
| HtmlScan.DecimalEntity | apps/aurora/html_parser.c:62-101 | "&#", the decimal digits of a printable code and ";" decode to that character |
| HtmlScan.HexEntity | apps/aurora/html_parser.c:62-101 | so do its hexadecimal digits, in either case |
| HtmlScan.PrintableEntity | apps/aurora/html_parser.c:62-101 | in particular every printable character written as its own decimal code |
| HtmlSkip.NamedAsNumbered | apps/aurora/html_parser.c:92-146 | an entity's name and the number of its character give the same for twelve of the names, and something else for all others |
| HtmlScan.DecimalNumber | apps/aurora/html_parser.c:204-213 | reading the decimal digits of a number gives the number |
| HtmlScan.DecodeEntity | apps/aurora/html_parser.c:104-152 | an entity of any kind: character and length, never past the input |
| HtmlScan.FindAttr | apps/aurora/html_parser.c:155-201 | the value of the first attribute of that name, quoted or not, cut to the buffer |
| HtmlSkip.QuotedValue | apps/aurora/html_parser.c:171-186 | a value between double or single quotes is read as it stands |
| HtmlSkip.BareValue | apps/aurora/html_parser.c:171-186 | and so is one without quotes, up to white space, ">" or the end of the tag |
| HtmlSkip.CommentSkipped | apps/aurora/html_parser.c:254-259 | a comment is passed over up to its first end mark and leaves no trace |
| HtmlSkip.BlockSkipped | apps/aurora/html_parser.c:242-252 | a script or style block is passed over up to the first end tag of its name, in whatever case, and leaves no trace |
| HtmlParse.StepProper | apps/aurora/html_parser.c:240-456 | each round keeps the document a tree and the open elements its root-to-current path, and moves on |
| HtmlParse.IndexAtEnd | apps/aurora/html_parser.c:240-456 | the index ends at the length of the input, or one beyond it exactly when the parser meets a "<" that is the last character |
| HtmlParse.NoLoneLess | apps/aurora/html_parser.c:306-311 | an input that does not end in "<" never takes the index out of bounds |
| HtmlParse.PassesEnd | apps/aurora/html_parser.c:306-311 | the input "<" does |
| HtmlParse.StackDepth | apps/aurora/html_parser.c:227-229 | an open element lies as deep in the tree as it stands on the stack |
| HtmlParse.RunShallow | apps/aurora/html_parser.c:223-459 | whatever the input, no node lies deeper than the stack is high |
| HtmlParse.RunNoContent | apps/aurora/html_parser.c:364-376 | whatever the input, br, hr and img never get a child |
| HtmlParse.Opens | apps/aurora/html_parser.c:306-380 | and every other element whose tag does not close itself is opened, as long as stack and pool have room |
| HtmlParser.Parser.ReadClosing | apps/aurora/html_parser.c:267-303 | a closing tag closes up to the nearest open element of its tag, or nothing |
| HtmlParser.Parser.CloseElements | apps/aurora/html_parser.c:276-301 | list counters and open elements are dropped together |
| HtmlParser.Parser.ReadOpening | apps/aurora/html_parser.c:306-380 | an opening tag, script and style blocks included |
| HtmlParser.Parser.ReadElement | apps/aurora/html_parser.c:339-377 | the new element, its attributes and number, and whether it is opened: not if it closes itself, is br, hr or img, or finds the stack full |
| HtmlParser.Parser.ReadChar | apps/aurora/html_parser.c:398-432 | one character through the text buffer, which becomes a node when full |
| HtmlParser.Parser.ReadText | apps/aurora/html_parser.c:384-455 | a piece of text up to the next "<" |
| HtmlParser.Parser.ParseAll | apps/aurora/html_parser.c:240-456 | the single pass over the pool agrees with the run on documents |
| HtmlParser.ParseHtml | apps/aurora/html_parser.c:223-459 | on every input the pool holds a proper tree of at most 512 nodes and depth at most 48, with consistent links, in which br, hr and img have no children |
| HtmlRoundTrip.CharBack | apps/aurora/html_parser.c:104-152 | an escaped character is read as that character |
| HtmlRoundTrip.WordsRound | apps/aurora/html_parser.c:384-455 | a normalised text, escaped, becomes one text node with that text |
| HtmlRoundTrip.PairsLookup | apps/aurora/html_parser.c:155-201 | an attribute printed anywhere among others is found with its value, and one that is not printed is not found |
| HtmlRoundTrip.InfoBack | apps/aurora/html_parser.c:339-363 | link target, image source, alternative text, width and height are read back into the node |
| HtmlRoundTrip.OpenRound | apps/aurora/html_parser.c:306-380 | a printed opening tag makes exactly that element, with its attributes and list number, and opens it unless it is void |
| HtmlRoundTrip.CloseRound | apps/aurora/html_parser.c:267-303 | a printed closing tag closes exactly the innermost element |
| HtmlRoundTrip.RoundTrip | apps/aurora/html_parser.c:223-459 | printing any list of fine trees and parsing it gives exactly their nodes under the synthetic root, attributes and list numbers included, with the whole input consumed |
| HtmlRoundTrip.CountedItems | apps/aurora/html_parser.c:357-376 | the count that numbers list items is that of the items before it in the same list, however deep, lists inside left out |
| HtmlRoundTrip.SameNodes | apps/aurora/dom.c:17-46 | trees with the same nodes are the same trees |
| HtmlRoundTrip.PrintInjective | apps/aurora/html_parser.c:223-459 | so two fine documents print alike only if they are equal |

## Left out

Weaker than the source or narrower on purpose:

- Volumes.Volume.FreeChain: stated for a whole chain of the table; a cluster number that starts no chain is never passed under the invariant.
- Display.Screen.Present: 32-bit modes only, because the source copies four bytes a pixel without looking at the depth; other depths than 24 and 32 are not modelled anywhere.
- Gfx.Surface.Blit: source and target are different surfaces; a blit within one surface depends on the copying order.
- Compositor.Compositor.Compose: painting a window, the background with wallpaper and icons, and the taskbar are colour functions of a pixel, each window's confined to its rectangle; the clock stands for the second and the IP address that redraw the taskbar.
- Dom.Pool.AppendChild: only for the newest node, as the parser uses it.
- HtmlScan.ParseInt: no wrap-around of a number beyond 32 bits.
- FatSystem.FileSystem.Create: names that fit 8.3 and do not begin with byte 0xE5; the source cuts longer names when it writes them and compares them uncut.
- FatSystem.FileSystem.Mkdir: names as for Create.
- FatSystem.FileSystem.Unlink: for an entry that cannot go without harm the contents of the directory afterwards are not described, only that clusters are no longer accounted for.
- FatSystem.FileSystem.Write: descriptors of files that have not been unlinked, and sizes below 2^32.
- FatRun.Run: the requests are supported, a hypothesis of the law; so also FatRun.Step and FatRun.RunKeepsFile.
- Vfs.Descriptors.Write: sizes below 2^32 and files that have not been unlinked, as for FatSystem.FileSystem.Write.
- MakeImage.Builder.AddFile: the raised error is modelled as returning false.
- BuildImage.Build: names that begin like neither a free entry nor a dot entry, each once to a directory, as the callers of add_file pass them; the text of a name is its eleven bytes.
- Windows.WindowManager.Create: memory for the content surface is a parameter; titles, callbacks and the content itself are not part of a window, what painting it gives is.

Not modelled:

- Sector reads and writes always succeed: disk failures, retries and log output of the file system.
- Null pointers, failed memory allocation and pointer-range guards.
- 32-bit wrap-around of coordinates and sizes in drawing; the row pitch of surfaces (their pixels are two-dimensional arrays; rows of VRAM have their pitch).
- `gfx_put_pixel`, which stores nothing (kernel/drivers/gfx2d.c:66-69), and the rest of the drawing library.
- CRC and Adler sums of PNG files, which the source ignores too.
- Time stamps of directory entries beyond the constants the source writes; FAT mirror repair; more than the first two tables.
- The walk of `fat32_update_dir_entry` is modelled by the common directory walk, whose tests it repeats.
- Path lookup, mounts, pipes, polling and closing in kernel/fs/vfs.c.
- Directory listing of the image builder's input files, name derivation, and writing the image to a file; the bytearray is an array of sectors that begins at the volume's first sector on disk.
- The HTML input is a string of characters, one for each byte; layout, painting and the debug printer of the browser.
- The rest of the window manager (moving, maximising, hiding, the mouse and keys), scheduler, memory management, network, shell and all hardware access.
