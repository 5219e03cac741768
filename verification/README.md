# Remote terminal: a verified model

This project models the computing core of a handheld remote terminal (SSH and telnet sessions on a 1280 x 720
panel) and proves what that core promises.

- **The VT100/ANSI emulator** (`main/terminal.c`). Bytes drive a five-state parser over two 42 x 80 grids, a scroll
  region, a cursor with deferred autowrap, a saved cursor and a 300-line scrollback ring with a movable view.
  `TermModel` says what each byte does to a state whose history is the unbounded sequence of every row ever pushed.
  `Terminal` is the object as it runs: flat cell buffers changed in place by nested loops, a ring with modular
  indices, a 64-byte parameter buffer. Every method is tied to the model by `View()`. `ControlSequences` and
  `EscapeSequences` relate the parser to the sequences of ECMA-48, and `Effects` gives the effect of every command from
  its bytes to the fields of cells, cursor and switches.
- **The renderer** (the second half of `main/terminal.c`). `RenderModel` defines the picture of a full redraw and the
  row-diffing pass; `DrawCommands` defines what a layer of fill and text commands does when it is executed at the
  end, reading text slices from the scratch buffer only then, and what it does when each batch is executed as it is
  issued; `Renderer` is the pass itself, with its shadow, its run batching and its cursor logic, on both kinds of
  display at once (`canvas` and `eager`).
- **The telnet codec** (`main/telnet_client.c`). `TelnetModel` is the five-state decoder with its replies and the
  client's operations; `TelnetTheorems` and `NawsTheorems` relate it to the grammar of RFC 854 and RFC 855 and to
  window-size reporting (RFC 1073); `PeerSync` says when a peer stays in step with the client; `WriteBuffer` and
  `TelnetClient` are the buffered writer and the object.
- **The session screen** (`main/session_ui.c`): drag-to-scroll accounting, and the read, drain, feed, render loop.
- **Remembered networks** (`main/wifi_creds.c`): an array shifted in place against "the last eight distinct SSIDs".
- **The host list** (`main/ui_shell.c`): two passes against a stable sort by first-seen group.

## How it is arranged

State that the program changes in place is a class whose `Valid()` fixes its shape and whose view function gives the
value it stands for; each method equates the new view with a specification function of the old one. What the program
promises is then proved about those functions, over every input and every run. Where a result would otherwise be
measured with a function that the model itself uses, it is stated by fields and literal numbers instead: what a
printed or erased cell holds, what a tile shows, which reply is due, which bytes a message has, which password is
kept. Colour indices below 16, grid and row sizes and the contents of the parameter buffer are carried by types
(`Color`, `Grid`, `Row`, `CsiText`), the ranges of cursor, saved cursor, margins and view offset by `Wf`; a terminal
in use has type `Live`, which is `Wf`. The C struct `terminal` is split into `Terminal` (emulation) and `Renderer`
(what is on the canvas), and its foreground, background and attribute fields are one `Pen`. A shadow cell is `None`
where the program stores the byte pattern 0xFF, which no cell can equal.

Where a promise does not hold for every input, the exact condition is proved:

- A pending wrap means "cursor in the last column" except after `ESC 8` restores another column
  (`WrapFlag.WrapOkThroughout`, witness `WrapFlag.StrandedWrap`).
- A window-size report reaches the peer exactly when none of its four size bytes is 255, because
  `tn_send_naws` does not double 255 (`NawsTheorems.ReportArrivesIff`).
- A peer that runs the same decoder has exactly what was written, after every operation of any run, if and only if
  every size reported is one that it gets past (`PeerSync.InStepIff`; the condition on the four bytes is
  `PeerSync.Closes`). What any size does to the peer is given by `PeerSync.ReportOutcome`. A lone 255 in the low byte of
  the columns (255 by 24) gives it a stray byte of session data (`PeerSync.StrayByte`); one in the low byte of the rows
  (80 by 255) leaves it inside the report, so that what is written next is swallowed (`PeerSync.SwallowedWrite`);
  65535 by 42 does no harm (`PeerSync.HarmlessSize`).
- A printed parameter list is read back unchanged exactly when it has at most 16 entries and does not end in an omitted
  one (`CsiParams.ParamRoundTrip`). Sent as a control sequence it must also fit the 63 bytes that the emulator keeps:
  that is again exact (`CsiParams.BufferedRoundTrip`, `ControlSequences.ParametersArriveIff`, witness
  `CsiParams.SixteenCut`).
- The scrolled-back view stays on its line exactly until the ring overflows under it (`HistoryView.ViewStaysIff`,
  witness `PlainText.OldestLineEvicted`).
- A catch-up redraw is invisible exactly when the scroll is not clamped (`DragModel.CatchUpKeepsPicture`, witness
  `DragModel.ClampedCatchUpJumps`).
- The remembered networks stay distinct after a save exactly when the SSID fits 32 bytes or its cut form is not
  among the entries that stay (`WifiCreds.DistinctAfterSaveIff`, on whole runs `WifiCreds.DistinctThroughoutIff`,
  witness `WifiCreds.LongNameTwice`).
- Leaving the alternate screen works exactly when the sequence for it does not start inside another escape sequence
  (`AltScreen.LeavesIff`, witness `AltScreen.CutShort`).
- A control sequence is read and carried out without 32-bit overflow exactly when its first 16 parameters fit an int
  and, for a movement down or right, so does the sum with the cursor's position (`ControlSequences.NoOverflowIff`,
  witness `ControlSequences.OverflowingMove`).
- The last parameter that sets a property wins among the first 16 of an SGR sequence (`Sgr.LastParameterWins`, witness
  `Sgr.SeventeenthIgnored`).

`main/terminal.h` says that unrecognized escape sequences are consumed. The code does so for some of them, and the model
follows the code. Which ones is proved for every sequence of these forms:

- A control sequence is consumed whole exactly when it has no intermediate bytes and its parameter bytes are a run of
  `?` followed by digits and semicolons; otherwise its final byte is printed
  (`EscapeSequences.ControlSequenceConsumedIff`, witness `EscapeSequences.PrefixLeaks`: `ESC [ > c` prints `c`).
- An operating system command is consumed exactly when it is ended by BEL; ended by `ESC \` it prints the backslash
  (`EscapeSequences.OscConsumedIff`).
- An escape sequence with intermediate bytes is consumed exactly when it is a character-set designation with a single
  one of `( ) * +` (`EscapeSequences.EscapeConsumedIff`); one without is always consumed, which makes text of what
  follows `ESC P`, `ESC X`, `ESC ^` and `ESC _` (`EscapeSequences.TwoByteEscapeConsumed`).

## Model

| member | source | states |
|---|---|---|
| PlainText.PlainTextFidelity | main/terminal.c:536-580 | From a fresh terminal, any printable lines joined by CR LF: every row ever pushed, followed by the screen down to the cursor, is exactly the lines broken at 80 columns and blank-padded. |
| PlainText.PlainTextExactly | main/terminal.c:250-271 | The same, and nothing stands below the cursor, and rows have left the screen only because it was full. |
| PlainText.TypeOne | main/terminal.c:563-579 | A printable character extends the current row, or starts the next one when the row is full: the deferred wrap loses and duplicates nothing. |
| PlainText.NextLine | main/terminal.c:264-271 | A line feed keeps the whole transcript and adds one blank row, scrolling or not. |
| PlainText.WrappedParts | main/terminal.c:554-562 | A line wraps to its full rows plus one last piece, which is empty only for an empty line. |
| PlainText.WrappedCount | main/terminal.c:554-562 | A line takes max(1, ceil(length / 80)) rows: no extra blank row after a line whose length is a multiple of 80. |
| PlainText.OldestLineEvicted | main/terminal.c:240-247 | A run on which output does move a scrolled-back view: the oldest of 300 retained lines is on top, and one more arrives. |
| SessionModel.PlainSessionOnScreen | main/session_ui.c:254-275 | End to end, from any codec between items: text lines sent by a server, mixed with any telnet negotiation and cut up in any way, appear as exactly their wrapped rows. |
| SessionModel.TextReachesScreen | main/session_ui.c:254-275 | On any well-formed telnet stream the emulator is fed exactly the text, and exactly the replies due are sent, byte for byte. |
| SessionModel.SegmentationIndependence | main/session_ui.c:266-272 | Codec, emulator, replies and bytes sent depend only on the concatenated wire bytes, not on how reads and drains cut them. |
| SessionModel.ServerStaysInStep | main/session_ui.c:426-436 | With the size of 80 by 42 that the program tells, none of its replies to any bytes is taken for session data by a server that runs this decoder, which is always left between items. |
| TermModel.FeedAppend | main/terminal.c:582-587 | Feeding a stream in two pieces equals feeding it at once. |
| TermModel.PutC | main/terminal.c:470-580 | Every byte in every state keeps the emulator invariant: cursor and saved cursor on the grid, margins ordered, view offset inside the retained history. |
| TermModel.ScrollBy | main/terminal.c:196-206 | A scroll request, however large, keeps the invariant. |
| HistoryView.HistoryViewIsStable | main/terminal.c:240-247 | While a user looks back, any output whatever leaves every history row on screen unchanged, as long as the ring does not overflow under the view. |
| HistoryView.HistoryViewAfterEviction | main/terminal.c:230-248 | Without that condition: row r shows history line max(top line, oldest retained) + r. |
| HistoryView.TopLineAfterOutput | main/terminal.c:240-247 | After any output the view rests on the line it was on, or on the oldest retained one if that was evicted. |
| HistoryView.ViewStaysIff | main/terminal.c:240-247 | The top line stays the same exactly when offset plus pushed rows is at most 300. |
| HistoryView.ScrollUnderViewIsInvisible | main/terminal.c:250-262 | A full-screen scroll of the main screen under a scrolled-back view changes none of the 42 rows, live rows included. |
| HistoryView.ViewportIsWindow | main/terminal.c:213-228 | Screen row r is row count - offset + r of the retained history followed by the active grid. |
| HistoryView.FeedAppends | main/terminal.c:230-262 | Along any output the history only grows at its end, and a non-zero offset grows with it up to 300. |
| HistoryView.LineFeedHistory | main/terminal.c:252-257 | A row reaches the history exactly when the last row of a full-screen region of the main screen is fed. |
| HistoryView.LineFeedRow | main/terminal.c:258-261 | Row by row: the region moves up, its last row is blank, rows outside it never move. |
| HistoryView.ScrollMovesTopLine | main/terminal.c:196-206 | A scroll moves the top line by the request, clamped to what is retained, and changes nothing else. |
| Ring.RingIndexing | main/terminal.c:217-228 | The modular index arithmetic finds the slot of the right history line; every operand of the remainder is non-negative and the slot is in range. |
| Ring.PushKeepsRing | main/terminal.c:235-239 | Overwriting the head slot keeps the last 300 pushed rows in the ring, across wraparound and eviction. |
| AltScreen.Isolation | main/terminal.c:230-234 | While the alternate screen stays active, no byte string touches the main grid, the history or the offset. |
| AltScreen.EnterAndLeave | main/terminal.c:340-361 | Mode 1049 on, any session without ESC 7 that stays on the alternate screen, mode 1049 off: main grid, history and offset are as they were. The alternate screen is left, and the cursor position restored, exactly when the session does not end inside an escape sequence. |
| AltScreen.LeavesIff | main/terminal.c:470-480 | From the alternate screen, ESC [ ?1049 l leaves it exactly when the parser is in text state; the main screen and history are untouched either way. |
| AltScreen.CutShort | main/terminal.c:510-523 | After a session that ends with ESC [ the alternate screen is not left. |
| AltScreen.Switching | main/terminal.c:343-360 | The two sequences for mode 1049, from bytes to effect. |
| CsiParams.ParseSplit | main/terminal.c:367-390 | Every buffer of digits and semicolons is read as its fields, an empty last one dropped, at most 16 kept (ECMA-48 section 5.4.2). |
| CsiParams.ParseJoined | main/terminal.c:367-390 | The same for any list of digit fields written with semicolons, leading zeros included. |
| CsiParams.ParseAfterPrint | main/terminal.c:367-390 | Any printed parameter list is read back as its first 16 entries, an omitted last one dropped. |
| CsiParams.ParamRoundTrip | main/terminal.c:367-390 | A printed list is read back unchanged exactly when it has at most 16 entries and does not end in an omitted one. |
| CsiParams.BufferedRoundTrip | main/terminal.c:515-519 | Through the 63 bytes that the emulator keeps, a list is read back unchanged exactly when it has at most 16 entries, does not end in an omitted one, and its text fits. |
| CsiParams.SixteenCut | main/terminal.c:515-519 | Sixteen times 1049 meets the first two conditions and is read back as another list. |
| CsiParams.DigitLoopFits | main/terminal.c:379-383 | The digit loop stays inside a 32-bit int at every step exactly when the parameter fits. |
| ControlSequences.SequenceReachesDispatch | main/terminal.c:510-523 | A complete control sequence is dispatched once on its first 63 parameter bytes and the parser is back to text. |
| ControlSequences.ParametersArriveIff | main/terminal.c:392-412 | A list sent as a control sequence is dispatched once, on what the first 63 bytes of its text say; that is the list itself exactly when it has at most 16 entries, does not end in an omitted one, and its text fits. |
| ControlSequences.ParametersArriveIntact | main/terminal.c:392-412 | Any list of at most 16 parameters not ending in an omitted one, whose text fits the buffer, reaches the command intact. |
| ControlSequences.CursorPosition | main/terminal.c:431-438 | ESC [ r+1 ; c+1 H puts the cursor at (r, c) and draws nothing (ECMA-48 section 8.3.21). |
| ControlSequences.NoOverflowIff | main/terminal.c:367-429 | Every number computed while reading a sequence and moving the cursor stays inside a 32-bit int exactly when each of the first 16 parameters does and, for B and C, so does its sum with the row or column. |
| ControlSequences.ComputedIsUsed | main/terminal.c:415-430 | The sums and differences meant there are those that the movements clamp. |
| ControlSequences.NoOverflow | main/terminal.c:392-429 | In particular parameters of at most nine digits never overflow. |
| ControlSequences.OverflowingMove | main/terminal.c:419-422 | ESC [ n B overflows when n and the row together do, for instance 2147483647 below row 0, although that parameter fits. |
| ControlSequences.UpThenDownIff | main/terminal.c:415-422 | Cursor up then down by the same amount returns exactly when the start is the bottom margin, or is above it with the top margin not overrun; below the margins, where CUP can put the cursor, it never returns. |
| ControlSequences.LeftThenRightIff | main/terminal.c:423-430 | The same for columns. |
| ControlSequences.EraseInDisplayCell | main/terminal.c:282-302 | Erase in display, cell by cell: before, after, all; every other mode erases from the cursor on. |
| ControlSequences.EraseInLineCell | main/terminal.c:273-280 | Erase in line, cell by cell, on the cursor's row only. |
| Effects.Printed | main/terminal.c:563-579 | A printable byte in text state, on either screen: the cursor's cell gets the byte and the pen's foreground, background and attributes, no other cell changes, and the cursor moves on or defers the wrap. |
| Effects.WrapIsNewLine | main/terminal.c:554-562 | With a wrap pending a byte is printed exactly as if CR LF had come before it. |
| Effects.StyledCell | main/terminal.c:304-329 | From an SGR sequence and a byte: the cell holds the byte, and each of its properties is what the last parameter read that sets it says, or the old pen. |
| Effects.EraseDisplay | main/terminal.c:282-302 | ESC [ ... J, from its bytes: which cells are erased by the first parameter, what an erased cell holds, and that nothing else changes. |
| Effects.EraseLine | main/terminal.c:273-280 | The same for ESC [ ... K. |
| Effects.ScrolledInCell | main/terminal.c:258-261 | The row that a scroll leaves behind holds spaces in the colours of the pen, without attributes. |
| Effects.PlaceCursor | main/terminal.c:431-438 | ESC [ r ; c H or f: counted from 1, missing or 0 as 1, clamped to the screen; nothing else changes. |
| Effects.MoveCursor | main/terminal.c:415-430 | ESC [ n A to D: the cursor moves by n, missing or 0 as 1, up to the margin or edge; nothing else changes. |
| Effects.SetScrollRegion | main/terminal.c:448-463 | ESC [ t ; b r: the margins, or the whole screen when they enclose less than two rows, and the cursor at their top left. |
| Effects.ControlCharacter | main/terminal.c:535-550 | CR, BS, TAB and LF move the cursor as stated; every other control character and every byte above 0x7E does nothing. |
| Effects.SetModes | main/terminal.c:331-365 | ESC [ ? ... h or l: cursor keys (1), cursor (25) and screen (47, 1047, 1049) are switched if and only if named in the list; main screen, pen, margins and history stay. |
| Effects.PlainAltScreen | main/terminal.c:340-361 | Modes 47 and 1047 clear the alternate screen and go home on entering, and neither save nor restore the cursor. |
| Effects.SaveAndRestore | main/terminal.c:489-501 | ESC 7, any bytes that store no other position and end between sequences, ESC 8: row, column and pen are back and nothing else changes. |
| Effects.ResetEffect | main/terminal.c:502-505 | ESC c: the initial value of every register and switch, the screen in use blank in default colours, everything else as it was. |
| Effects.FreshIsReset | main/terminal.c:113-128 | A new terminal is what ESC c makes of it, except that its saved pen is black on black. |
| ControlSequences.UnknownSequenceIsIgnored | main/terminal.c:464-466 | A control sequence, with or without '?', whose final byte is unknown or whose modes all are, only cancels a deferred wrap. |
| EscapeSequences.ControlSequenceConsumedIff | main/terminal.c:510-523 | For every control sequence of ECMA-48 section 5.4: the final byte is taken as such exactly when there are no intermediate bytes and the parameter bytes are a run of '?' followed by digits and ';'; until then only the parser has moved, and otherwise the final byte is printed. |
| EscapeSequences.PrefixLeaks | main/terminal.c:510-523 | ESC [ > c prints c. |
| EscapeSequences.OscConsumedIff | main/terminal.c:525-529 | An operating system command leaves the terminal as it was exactly when it is ended by BEL; ended by ESC backslash it prints the backslash. |
| EscapeSequences.EscapeConsumedIff | main/terminal.c:472-508 | An escape sequence with intermediate bytes is consumed, without a trace, exactly when its only intermediate byte designates a character set; every other one prints its final byte. |
| EscapeSequences.TwoByteEscapeConsumed | main/terminal.c:472-504 | A two-byte escape that is neither an introducer nor implemented changes nothing. |
| Sgr.LastParameterWins | main/terminal.c:304-329 | After ESC [ ... m, from its bytes, each colour and attribute is what the last parameter that sets it says, among the first 16 that the first 63 bytes hold, or unchanged; no parameter means the reset. Only pen, deferred wrap and parameter buffer change. |
| Sgr.SeventeenthIgnored | main/terminal.c:367-369 | A seventeenth parameter is not read: the sixteenth decides. |
| Sgr.OneParameter | main/terminal.c:313-327 | One parameter touches exactly the properties that its row of the table names. |
| WrapFlag.WrapOkThroughout | main/terminal.c:494-499 | On a whole run a pending wrap means the last column at every point exactly when no ESC 8 restores another column under it. |
| WrapFlag.StrandedWrap | main/terminal.c:494-499 | A run that ends with the wrap pending in column 0. |
| RenderModel.TileShown | main/terminal.c:632-697 | Every tile of a full redraw, from the fields of its cell: the character, foreground on background, exchanged by the reverse attribute, and always under a cursor that shows; the cursor shows when switched on and the view is live. |
| RenderModel.DimColors | main/terminal.c:86-92 | Bits 0, 1 and 2 of colours 0 to 7 stand for red, green and blue. |
| RenderModel.BrightColors | main/terminal.c:86-92 | Colours 8 to 15 are the bright ones: full components where the bit is set, grey for 8. |
| RenderModel.PaletteDistinct | main/terminal.c:86-92 | No two of the sixteen colours are alike. |
| RenderModel.RenderIsFullRedraw | main/terminal.c:595-706 | One pass (early exit, skipped rows, old-cursor erasure, overlay) leaves the canvas of a full redraw. |
| RenderModel.EveryRefreshIsFullRedraw | main/terminal.c:589-706 | In any interleaving of output, scrolling and refreshing, from any initial canvas, every refresh ends with the canvas of a full redraw. |
| DrawCommands.PaintRun | main/terminal.c:632-675 | One fill and one text command for a run of equal style extend the drawn part of the row by exactly the run. |
| DrawCommands.ExecuteFrame | main/terminal.c:77-83 | Executing a layer depends only on the scratch bytes in use. |
| DrawCommands.NowOrLater | main/terminal.c:77-83 | Executing a batch when it is issued, with the scratch buffer as it is then, on the canvas of the layer so far gives what executing the whole layer later gives, provided the slices in use are left alone. |
| DrawCommands.AppendBatch | main/terminal.c:660-674 | The text slices of a pass lie one after the other without overlap. |
| GridOps.CellClearRange | main/terminal.c:94-104 | The clearing loop blanks exactly the span and nothing else. |
| GridOps.GridClearAll | main/terminal.c:106-111 | Every cell becomes the blank of the given colours. |
| GridOps.ShiftRows | main/terminal.c:258-260 | Copying rows upward inside one buffer moves each row of the region once. |
| GridOps.ParseBuffer | main/terminal.c:367-390 | Terminates on every buffer and yields the modelled parameter list. |
| Terminal.Terminal.constructor | main/terminal.c:130-184 | The created object stands for the fresh terminal. |
| Terminal.Terminal.Scroll | main/terminal.c:196-206 | Refines ScrollBy. |
| Terminal.Terminal.PhysicalSlot | main/terminal.c:221-223 | The slot computed from head and count holds the wanted line of history. |
| Terminal.Terminal.DisplayRow | main/terminal.c:217-228 | The buffer and position returned hold exactly the row that the model displays. |
| Terminal.Terminal.PushScrollback | main/terminal.c:230-248 | Refines Push: the ring keeps representing the last 300 rows of the history. |
| Terminal.Terminal.ScrollRegionUp | main/terminal.c:250-262 | Refines the region scroll. |
| Terminal.Terminal.LineFeed | main/terminal.c:264-271 | Refines LineFeed. |
| Terminal.Terminal.EraseInDisplay | main/terminal.c:282-302 | Refines the erasure by position span. |
| Terminal.Terminal.EraseInLine | main/terminal.c:273-280 | Refines the erasure on one row. |
| Terminal.Terminal.ApplySgr | main/terminal.c:304-329 | Refines the property-by-property pen update. |
| Terminal.Terminal.SetPrivateMode | main/terminal.c:331-365 | Refines mode setting, the screen switch included. |
| Terminal.Terminal.DispatchCsi | main/terminal.c:392-467 | Refines Dispatch on the parsed buffer; the effect of every command is stated by the rows of Effects and Sgr. |
| Terminal.Terminal.PutC | main/terminal.c:470-580 | Refines the model's byte step in every parser state; what a byte does is stated by the rows of Effects and EscapeSequences. |
| Terminal.Terminal.Feed | main/terminal.c:582-587 | Refines Feed. |
| Renderer.Renderer.RowUnchanged | main/terminal.c:589-593 | The comparison is exact: true if and only if the displayed row is the remembered one. |
| Renderer.Renderer.RunLength | main/terminal.c:634-642 | The run has one style and cannot be extended. |
| Renderer.Renderer.DrawRow | main/terminal.c:629-675 | A row's runs, executed at the end, draw exactly that row; it is remembered as drawn and takes up 80 bytes of scratch. |
| Renderer.Renderer.DrawChangedRows | main/terminal.c:620-676 | Only rows that may look different are issued, within 42 * 80 bytes of scratch, and the result is as if all had been. |
| Renderer.Renderer.Render | main/terminal.c:595-706 | The canvas equals a full redraw (tile by tile as in RenderModel.TileShown), whether commands are executed at the end of the layer or one by one as they are issued; the terminal is untouched, and the memory is right for the next pass. |
| TelnetTheorems.DecoderRefinesGrammar | main/telnet_client.c:106-178 | On every stream of text, two-byte commands, negotiations and subnegotiations (RFC 854, RFC 855): exactly the data, exactly the replies, in order, back in the data state. |
| TelnetTheorems.NegotiationReply | main/telnet_client.c:72-104 | The reply bytes to every negotiation: WILL is accepted for ECHO and SGA only, DO for SGA, terminal type and window size only, the last with a report when both dimensions are known; WONT gets DONT and DONT gets WONT. |
| TelnetTheorems.TerminalTypeReply | main/telnet_client.c:60-70 | A subnegotiation is answered exactly when it is TERMINAL-TYPE SEND, by the bytes of "xterm". |
| TelnetTheorems.MessageBytes | main/telnet_client.c:43-70 | The bytes of each message; both dimensions of a window size with the high byte first. |
| TelnetTheorems.DecodeItem | main/telnet_client.c:106-178 | The same for one item, with its effect on window-size reporting. |
| TelnetTheorems.DecodeAppend | main/telnet_client.c:274-280 | State, data and replies do not depend on how the wire bytes are cut. |
| TelnetTheorems.StuffRoundTrip | main/telnet_client.c:284-304 | Decoding stuffed data gives the data back, no reply, same state. |
| TelnetTheorems.SentIsWellFormed | main/telnet_client.c:43-104 | While no report carries a byte 255, everything sent is a well-formed telnet stream whose text is what was written. |
| PeerSync.InStepIff | main/telnet_client.c:43-104 | In any interleaving of reads with inline replies, writes and size changes: after every operation the peer has exactly what was written and is between items, if and only if every size reported is one that it gets past. |
| PeerSync.PeerGetsWhatWasWritten | main/telnet_client.c:43-104 | On any run whose reports are all ones that the peer gets past, it ends with exactly what was written, between items. |
| NawsTheorems.NawsAgreement | main/telnet_client.c:82-95 | In any interleaving, reporting is enabled exactly from the first DO NAWS on, nothing is reported before, and the last report carries the current size whenever both dimensions are known. |
| NawsTheorems.SizeReported | main/telnet_client.c:306-313 | A size change is stored, and reported once, whatever it is, exactly when DO NAWS was received before. |
| NawsTheorems.ReportArrivesIff | main/telnet_client.c:49-58 | A report is read by the peer with its size exactly when no size byte is 255. |
| PeerSync.ReportOutcome | main/telnet_client.c:49-58 | For every size: which stray session bytes the peer reads out of the report, what it answers, and whether it is left inside the report. |
| PeerSync.ReportClosesIff | main/telnet_client.c:49-58 | No stray data and back between items exactly when the four bytes meet the stated condition. |
| PeerSync.LostReport | main/telnet_client.c:49-58 | A report whose only byte 255 is the low byte of the columns is lost, and the peer takes the low byte of the rows for session data and is back in the data state. |
| PeerSync.StrayByte | main/telnet_client.c:49-58 | DO NAWS, then a size with a lone 255 in the low byte of the columns, such as 255 by 24: nothing was written, and the peer receives the low byte of the rows. |
| PeerSync.SwallowedWrite | main/telnet_client.c:49-58 | DO NAWS, then a size with a lone 255 in the low byte of the rows, such as 80 by 255, then a write: the peer receives nothing and is still inside the report. |
| WriteBuffer.BlocksAreStuffedData | main/telnet_client.c:284-304 | The blocks of a write, one after the other, are the stuffed data; each has at most 255 bytes and is the stuffed form of a piece, so no doubled 255 is split. |
| WriteBuffer.FailedWriteSendsPrefix | main/telnet_client.c:290-292 | If the socket fails, what went out is the stuffed form of a prefix of the data. |
| TelnetClient.TelnetClient.ProcessByte | main/telnet_client.c:106-178 | Refines the decoder step: state, data byte, reply bytes; which replies those are is stated by TelnetTheorems.NegotiationReply and TerminalTypeReply. |
| TelnetClient.TelnetClient.Read | main/telnet_client.c:252-282 | At most max_len bytes, exactly the decoded data, -1 on failure or end, 0 on timeout. |
| TelnetClient.TelnetClient.Write | main/telnet_client.c:284-304 | Sends exactly the modelled blocks, up to the one that the socket refuses, and succeeds if and only if none is refused. |
| TelnetClient.TelnetClient.SetSize | main/telnet_client.c:306-313 | Stores the size and reports it if reporting is enabled. |
| DragModel.PressEffect | main/session_ui.c:214-237 | A move changes only the pan, unless 40 ms have passed since the last redraw or the pan reaches 160 pixels either way: then whole lines become scrolling and less than one is left. |
| DragModel.CatchUpKeepsPicture | main/session_ui.c:191-206 | A catch-up leaves less than a line of pan, and keeps every line at its pixel position exactly when the scroll is not clamped. |
| DragModel.ClampedCatchUpJumps | main/session_ui.c:191-206 | With no history, a catch-up after one line of drag moves the picture back by 16 pixels. |
| DragModel.DragConservation | main/session_ui.c:208-237 | While nothing clamps, 16 * offset + pan changes by exactly the sum of the finger's moves, however they are batched. |
| DragModel.PanStaysSmall | main/session_ui.c:230-236 | Along any gestures the pan stays strictly within 160 pixels either way. |
| DragModel.ReleaseDiscardsRemainder | main/session_ui.c:239-246 | Letting go discards less than one line. |
| DragModel.JumpIsLive | main/session_ui.c:182-189 | The jump shows the live grid, whatever the offset was. |
| DragModel.OutputKeepsPicture | main/session_ui.c:210-213 | Output during a drag moves no line of the history until the ring overflows under the view. |
| SessionUi.SessionUi.CatchUpScroll | main/session_ui.c:195-206 | Refines the catch-up and ends with a full redraw's canvas. |
| SessionUi.SessionUi.CanvasPressing | main/session_ui.c:214-237 | Refines a press. |
| SessionUi.SessionUi.CanvasReleased | main/session_ui.c:239-246 | Refines a release. |
| SessionUi.SessionUi.JumpToLiveClicked | main/session_ui.c:182-189 | Refines the jump. |
| SessionUi.SessionUi.SnapToLive | main/session_ui.c:290-303 | A key typed while looking back jumps to the live screen and redraws; otherwise it changes neither view nor canvas. |
| SessionUi.SessionUi.IoRound | main/session_ui.c:254-280 | One round reads until a read brings no data or nine have been made; everything delivered is decoded and fed in order, the replies due are sent, and the canvas is current afterwards. If the first read brings no data it is the only one and nothing changes on screen. |
| SessionUi.DrainedStops | main/session_ui.c:266-272 | Every drain but the last brought data, and the last brought none unless it was the eighth. |
| WifiCreds.MostRecentlyUsed | main/wifi_creds.c:133-161 | After any saves with SSIDs of at most 32 bytes the array holds the first eight entries of the list of all SSIDs by recency, each with the password saved last, cut to 64. |
| WifiCreds.RecentIs | main/wifi_creds.c:133-161 | That list, independently of how it is built: every SSID ever saved, with the password of its last save, cut to 64, in strictly decreasing order of that save. |
| WifiCreds.PasswordComesBack | main/wifi_creds.c:133-161 | After any such saves every listed name has the password last given for it, unchanged if it has at most 64 characters, empty if none was given. |
| WifiCreds.SavedInFront | main/wifi_creds.c:135-159 | One save, whatever the name: the front entry holds its first 32 characters and the first 64 of the password, and a name that fits is found there. |
| WifiCreds.EightMostRecent | main/wifi_creds.c:133-161 | The array without any reference list: latest entries in strictly decreasing order of their last save, and an SSID that was saved but is not listed was last saved before each of eight listed ones. |
| WifiCreds.SavedDistinct | main/wifi_creds.c:139-151 | Along such saves no SSID is ever listed twice. |
| WifiCreds.DistinctAfterSaveIff | main/wifi_creds.c:139-145 | A save keeps the SSIDs distinct exactly when the name fits 32 bytes or its cut form is not among the entries that stay. |
| WifiCreds.DistinctThroughoutIff | main/wifi_creds.c:133-161 | On whole runs with names of any length: no SSID is listed twice after any save exactly when every long name saved has its cut form absent from the entries that stay. |
| WifiCreds.LongNameTwice | main/wifi_creds.c:139-145 | A 33-character name saved twice is listed twice. |
| WifiCreds.WifiCreds.SaveNetwork | main/wifi_creds.c:133-161 | The two shift loops yield the first eight of the new entry followed by the old list without that SSID; the front entry holds the name cut to 32 and the password cut to 64 characters. |
| WifiCreds.WifiCreds.Find | main/wifi_creds.c:123-131 | The first entry with that SSID, or none if there is none. |
| WifiCreds.WifiCreds.Get | main/wifi_creds.c:115-121 | The entry at an index in range, otherwise nothing. |
| HostList.StableGrouping | main/ui_shell.c:107-205 | Every matching host appears once, sorted by first appearance of its group and stored position, ungrouped hosts last. |
| HostList.OrderIsUnique | main/ui_shell.c:114-117 | Only one order has that property. |
| HostList.ListingTitled | main/ui_shell.c:153-196 | Every host row stands under the heading of its own group, or under "Ungrouped". |
| HostList.ListingHeadings | main/ui_shell.c:153-201 | The headings are the groups seen, each once, in the order of their first host, then "Ungrouped" if needed; when no host matches, the list is one notice that says whether there are hosts at all. |
| HostList.ListingSpaced | main/ui_shell.c:153-196 | Directly below every heading stands a host, and there is no notice beside hosts. |
| HostList.RebuildHostList | main/ui_shell.c:107-205 | The two passes yield the modelled list of headers, rows and notice. |

## Left out

- CsiParams.Parse: parameters are unbounded integers; the C code overflows a 32-bit int beyond 2147483647, see `ControlSequences.NoOverflowIff` for exactly when.
- TelnetClient.TelnetClient.Write: a block accepted by the socket is delivered whole; partial sends are not modelled.
- TelnetClient.TelnetClient.Read: select and recv are a given outcome (`NetEvent`); the outcomes that the network has in store are a parameter of `SessionUi.SessionUi.IoRound`.
- WifiCreds.WifiCreds.SaveNetwork: names are sequences of characters without NUL; writing the JSON file is not modelled.
- HostList.RebuildHostList: the search filter is an arbitrary predicate on hosts; the text of a row is not modelled.
- Pixels, fonts and the LVGL objects: a canvas is a grid of tiles, a rectangle or label covers whole tiles.
- Allocation failure, `terminal_destroy`, task scheduling: callbacks and io rounds are atomic steps.
- Connecting and closing sockets, SSH sessions, USB, the keyboard tables and key sending: plumbing around libraries that are not part of this model.
- `main/host_store.c`, `main/wifi_manager.c`, `main/wifi_cp_ota.c`, JSON loading and saving: their guarantees rest on libraries that are not part of this model.
- Key events in the io task and local echo: finite tables of byte strings that are fed as any other output.
