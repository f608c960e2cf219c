# WSL Terminal: a verified model

This project models the three stateful parts of WSL Terminal in Dafny and proves what each keeps
over whole runs.

**The VT engine** (`rust/wslterm-core`). A byte-at-a-time ANSI and UTF-8 machine drives a screen
with a scroll region, an alternate buffer, deferred wrap, a scrollback ring and a pool of combining
marks.

- `ScreenModel.dfy` has the screen as a value and each operation as a function on it. `Screen.dfy`
  has the classes `Scrollback` (ring array) and `Screen`, whose methods are proved against those
  functions. History is kept as the log of every line ever pushed: the line with global number g is
  entry g of `log ++ primary grid`, and the ring is shown to hold the tail of the log.
- `ParserModel.dfy` and `Parser.dfy` do the same for the parser and the terminal; `Text.dfy` and
  `Base64.dfy` hold the encodings. The parser's fast path is proved equal to the fold of single
  steps.
- `ScreenOps.dfy` reduces every byte to primitive screen operations. On top of it stand the laws
  over all byte streams: `Feeding` (chunks), `HistoryLaws` and `ScrollJump` (log, pinned views),
  `Combining` (mark ids), `Alternate` (isolation), `Typing` (layout and extraction), `Sequences`
  (UTF-8, parameters, titles, reports), `Editing`, `PromptLaws` (prompt marks) and `Widened`
  (selections that cannot be read).
- What each operation means is stated apart from the functions that carry it out, cell by cell and
  byte by byte: `Glyphs` and `WideText` (printing, narrow and wide), `Views` and `Selections` (what
  is shown and read), `Sizes`, `Rendition`, `Controls`, `EditControls` and `Streams` (control bytes,
  escapes and sequences), `Requests` (titles, directories, clipboard, prompts) and `Malformed`
  (broken UTF-8).
- `Reset.dfy`, `Likeness.dfy` and `ResetRuns.dfy` say when a full reset gives a new terminal: which
  terminals no later input can tell apart, and that a reset one and a new one are such a pair
  exactly when nothing was left over.

**The multiplexed protocol** (`native`, `rust/wslterm-pty`).

- `Wire.dfy` has frames, their encoder and the meaning of any cut of their bytes. `Transport.dfy`
  has the write, splice and read loops under an adversarial kernel. `DaemonModel.dfy` and
  `Daemon.dfy` have the session table and frame buffer of the daemon, `Helper.dfy` the
  resynchronising decoder of the single-session helper.
- `ProtocolModel.dfy` puts mux calls, both streams, the daemon, the reader and disconnection into
  one step system; `Protocol.dfy` proves its invariant and what the owner may rely on, and
  `Delivery.dfy` that output and keystrokes arrive byte for byte and each request has its effect.
  `Mux.dfy` has the mux itself, each call shown to be the run of its atomic steps.

**Panes, sessions and the wake-up handshake** (`rust/wslterm/src/main.rs`).

- `Layout.dfy` has the pane tree and its laws; `SessionModel.dfy`, `Sessions.dfy` and
  `SessionLaws.dfy` the windows, tabs and registry; `SessionEffects.dfy` what each action does to
  tabs and focus; `Wakeup.dfy` the feed thread and the UI thread, and `Hearing.dfy` which output the
  feed thread keeps.

`dafny verify dfyconfig.toml` checks everything. `Cells.dfy` holds the cells, grids and the width
table. Integers are unbounded where the source cannot overflow on screens smaller than 2^31, and
explicit where it can: parameters wrap at 32 bits, word sums at 64, frame lengths at 32.

Where the code and its comments differ, the model follows the code:

- A comment says a reset leaves no cell with a mark, which holds. But a reset is not a new
  terminal: it does not restore tab stops, the saved cursor or the character sets, keeps title,
  directory, clipboard request and pending replies, and from the alternate screen it does not home
  the cursor, since leaving restores the saved one. `ResetRuns.ResetForGood` and
  `ResetRuns.ResetIsNew` give the exact condition for all that can follow, `ResetLaws.ResetIsFresh`
  the one for what shows at once, and `ResetLaws.ResetKeepsTabs` and `ResetLaws.ResetFromAlternate`
  the inputs that break each.
- The reader says it tells the owner of every session still live; it sends no Exit for a session
  opened after it has drained the set. `Protocol.EveryEarlySessionExits` states both sides, and
  `Protocol.LateOpenRuns` is such a run.
- A tick is to keep a scrolled-back view on the same lines. It does so exactly when all output had
  been counted when the user scrolled (`HistoryLaws.PinnedForTheRun`); scrolling between a feed and
  its tick makes the view jump (`ScrollJump.ViewJumps`).
- The daemon checks the lengths in an OPEN payload in 32 bits, and reads past the payload exactly
  when a sum wraps (`Wire.ReadsInside`, `Wire.LongestDirectory`). Such a read is recorded as a fault
  (`DaemonModel.FaultsExactly`), and what the source does after one is not described.
- A comment says duplicate marks for one line are avoided. Only a repeat of the last mark is
  (`PromptLaws.MarkedTwice`); `PromptLaws.MarksStayDistinct` and `PromptLaws.MarksStayInOrder` say
  when no line is marked twice.
- Text extraction indexes every row up to the width of the screen, but history lines keep the width
  they had: `ScreenModel.WholeRowsReadable` says which rows can be read, and
  `Widened.WidenedUnreadable` is a reachable screen with one that cannot.
- The feed thread is to route frames to their terminals; it drops output that arrives before the
  UI has registered the session it just opened (`Hearing.OutputLost`, `Hearing.LostExactly`).

## Model

| member | source | states |
|---|---|---|
| `ScreenMachine.Scrollback.Push` | rust/wslterm-core/src/screen.rs:48-60 | pushing onto the ring array appends the line to the abstract contents; a full ring gives up and returns exactly its oldest line, at every position of the modular start index |
| `ScreenMachine.Scrollback.Get` | rust/wslterm-core/src/screen.rs:44-47 | index i is the i-th oldest line held, for any start of the ring |
| `ScreenMachine.Scrollback.Clear` | rust/wslterm-core/src/screen.rs:61-68 | clearing empties the abstract contents |
| `ScreenMachine.Screen.constructor` | rust/wslterm-core/src/screen.rs:122-157 | the new screen is the fresh screen of that size and the ring has the given capacity, at least 1 |
| `ScreenMachine.Screen.Resize` | rust/wslterm-core/src/screen.rs:235-266 | both grids are rebuilt cell by cell to the new size (at least 1 x 1), the region is full, the cursor is pulled inside, tab stops are every 8 columns, history is kept; the invariant holds after |
| `ScreenMachine.Screen.PutRune` | rust/wslterm-core/src/screen.rs:270-335 | deferred wrap, wide glyphs, insert mode and zero-width marks change exactly what ScreenModel.PutRune says, keep both grids rectangular and the ring equal to the tail of the log |
| `ScreenMachine.Screen.ScrollUp` | rust/wslterm-core/src/screen.rs:396-415 | the loop of row rotations is one shift of the region by min(n, height), and pushes exactly the leaving rows into history when the region starts at the top of the primary screen |
| `ScreenMachine.Screen.ScrollDown` | rust/wslterm-core/src/screen.rs:427-437 | the loop of row rotations is one downward shift of the region |
| `ScreenMachine.Screen.Index` | rust/wslterm-core/src/screen.rs:375-382 | at the bottom margin the region scrolls, elsewhere the cursor moves down within the grid |
| `ScreenMachine.Screen.ReverseIndex` | rust/wslterm-core/src/screen.rs:383-390 | at the top margin the region scrolls down, elsewhere the cursor moves up within the grid |
| `ScreenMachine.Screen.Tab` | rust/wslterm-core/src/screen.rs:347-358 | the search loop ends on the next stop or the last column |
| `ScreenMachine.Screen.CursorTo` | rust/wslterm-core/src/screen.rs:473-479 | the cursor is clamped to the screen, or to the scroll region in origin mode, which offsets the row |
| `ScreenMachine.Screen.EraseInLine` | rust/wslterm-core/src/screen.rs:482-494 | the row is wiped from, to, or on both sides of the cursor in the current background |
| `ScreenMachine.Screen.EraseInDisplay` | rust/wslterm-core/src/screen.rs:495-524 | rows are wiped before, after, or everywhere; mode 3 clears history and prompt marks only |
| `ScreenMachine.Screen.EraseChars` | rust/wslterm-core/src/screen.rs:533-541 | n cells from the cursor are wiped, with the machine-word sum of column and count |
| `ScreenMachine.Screen.InsertChars` | rust/wslterm-core/src/screen.rs:543-557 | the cell-moving loop opens a gap of blanks at the cursor; cells pushed past the edge are lost |
| `ScreenMachine.Screen.DeleteChars` | rust/wslterm-core/src/screen.rs:558-570 | the cell-moving loop closes up the row and fills its end with blanks |
| `ScreenMachine.Screen.InsertLines` | rust/wslterm-core/src/screen.rs:571-583 | rows move down from the cursor to the bottom margin; outside the margins nothing happens |
| `ScreenMachine.Screen.DeleteLines` | rust/wslterm-core/src/screen.rs:584-597 | rows move up from the bottom margin to the cursor; outside the margins nothing happens |
| `ScreenMachine.Screen.SetScrollRegion` | rust/wslterm-core/src/screen.rs:599-610 | accepted regions have top above bottom inside the grid, anything else resets to the full grid; the cursor goes home |
| `ScreenMachine.Screen.SetAltScreen` | rust/wslterm-core/src/screen.rs:653-668 | entering saves the cursor and wipes the alternate grid, leaving restores the cursor; a repeated request does nothing |
| `ScreenMachine.Screen.FullReset` | rust/wslterm-core/src/screen.rs:624-649 | modes, rendition, region, screen, history, prompt marks and mark pool are reset in the order the source does it |
| `ScreenMachine.Screen.SetGraphics` | rust/wslterm-core/src/screen.rs:672-732 | the parameter loop with colon sub-parameters and 38/48 colour arguments computes the same rendition as the recursive specification, and stays inside the list |
| `ScreenMachine.Screen.MarkPrompt` | rust/wslterm-core/src/screen.rs:175-191 | a mark is recorded by the global number of its line unless the last mark is on that line already; evicted marks are dropped and at most 2000 are kept |
| `PromptLaws.MarksStayDistinct` | rust/wslterm-core/src/screen.rs:180-191 | marks on distinct lines stay so if and only if the cursor's line carries no earlier mark that stays, other than the last one |
| `PromptLaws.MarksStayInOrder` | rust/wslterm-core/src/screen.rs:180-191 | marks in the order of their lines stay so if and only if the cursor is not above the last one; then no line is marked twice |
| `PromptLaws.MarkedTwice` | rust/wslterm-core/src/screen.rs:180-184 | the input that marks a line twice: marks on rows 3, 1 and 3 are three marks |
| `ScreenMachine.Screen.MarkCmdExit` | rust/wslterm-core/src/screen.rs:195-204 | the latest mark takes the exit status if it has none |
| `ScreenMachine.Screen.PromptMarks` | rust/wslterm-core/src/screen.rs:208-218 | marks still kept or on the grid are mapped to absolute rows, oldest first |
| `ScreenMachine.Screen.AbsLine` | rust/wslterm-core/src/screen.rs:765-780 | row numbers run over history, then the active grid; others have no line |
| `ScreenMachine.Screen.CopyViewport` | rust/wslterm-core/src/screen.rs:744-757 | the view at an offset shows history rows above the grid rows, blank where neither exists, never out of range |
| `ScreenMachine.Screen.GetText` | rust/wslterm-core/src/screen.rs:782-819 | the loops over rows and cells collect the text of any selection whose cells all exist, trimming trailing blanks and joining with CR LF |
| `ScreenModel.WideRowsReadable` | rust/wslterm-core/src/screen.rs:782-819 | a selection can be read, without an index out of range, whenever the history rows it covers are at least as wide as the screen; other history lines do not matter |
| `ScreenModel.WholeRowsReadable` | rust/wslterm-core/src/screen.rs:782-819 | a selection of whole rows can be read if and only if the history rows it covers are that wide |
| `Widened.WidenedUnreadable` | rust/wslterm-core/src/screen.rs:782-819 | a reachable screen on which it fails: a line goes into history, the screen is widened, and reading both columns of that line runs past its end |
| `Typing.AutoWrap` | rust/wslterm-core/src/screen.rs:298-334 | after N printable ASCII characters on a fresh screen, character i sits on global line i / cols, column i % cols of history and grid, every other cell is blank, and the line counter is max(0, ceil(N / cols) - rows) |
| `Typing.ReadsBack` | rust/wslterm-core/src/screen.rs:782-819 | text extraction undoes printing: lines no longer than the screen is wide, without trailing space and no more than ring and grid hold, fed joined by CR LF and extracted, come back exactly |
| `HistoryLaws.ScrollUpExactly` | rust/wslterm-core/src/screen.rs:396-415 | for every n, scrolling with the region at the top appends exactly the first min(n, bot + 1) rows in order, shifts the rest, adds that many blanks and leaves the rows below |
| `HistoryLaws.PushKeepsNewest` | rust/wslterm-core/src/screen.rs:48-60 | the ring after any pushes is the newest part of what it held and what came |
| `HistoryLaws.FeedAdvances` | rust/wslterm-core/src/screen.rs:396-415 | whatever bytes are fed, the log of history lines is only extended, by lines as wide as the screen, and the oldest kept line never gets older |
| `HistoryLaws.LogIsForever` | rust/wslterm-core/src/screen.rs:396-406 | over every run of output and resizes a line once in history keeps its global number and contents |
| `HistoryLaws.RunKeepsHistWide` | rust/wslterm-core/src/screen.rs:256-257 | over every run of output and resizes that never widen the screen every history line stays at least as wide as it |
| `HistoryLaws.ResizedWide` | rust/wslterm-core/src/screen.rs:235-257 | after one resize that holds if and only if no history line is narrower than the new screen |
| `Layouts.EachIsEvery` | rust/wslterm/src/main.rs:1017-1033 | looking up each collected session and ticking the pane found ticks every pane of the tree exactly once, as long as no session has two panes |
| `SessionMachine.Application.OnRedrawTick` | rust/wslterm/src/main.rs:1017-1033 | the loops over tabs and collected sessions give each pane its new offset and counter, and change nothing else |
| `SessionLaws.PanesAreDistinct` | rust/wslterm/src/main.rs:1017-1033 | in every state the books allow no tab shows a session twice, so the repaint may rely on it |
| `HistoryLaws.TickKeepsView` | rust/wslterm/src/main.rs:1017-1033 | a tick that need not clamp puts the pinned line on top; that is the line shown before the output if and only if the counter noted was up to date then, and in that case the tick shows the same history rows cell for cell |
| `HistoryLaws.TickClamps` | rust/wslterm/src/main.rs:1017-1033 | a tick fits if and only if the pinned line is still kept; otherwise it stops at the oldest line kept when lines were added, and leaves the offset past history when history was cleared and none was added |
| `HistoryLaws.PinnedForTheRun` | rust/wslterm/src/main.rs:1017-1033 | at every tick of every run of output and resizes after the user scrolled, as long as none clamps, the pinned line is on top; the view scrolled to is kept if and only if all output by then had been counted by a tick, and then its rows are shown cell for cell |
| `HistoryLaws.CounterNeverAhead` | rust/wslterm/src/main.rs:2372-2385 | over every run of output, resizes, ticks and scrolling the counter a pane noted is never ahead of its screen's |
| `ScrollJump.ViewJumps` | rust/wslterm/src/main.rs:2372-2385 | a concrete run, scrolled between a feed and its tick, on which the tick moves the view although nothing is printed in between |
| `Combining.MarksOverRuns` | rust/wslterm-core/src/screen.rs:273-323 | over every run of output and resizes each mark id in use indexes the pool and belongs to one live cell only |
| `Combining.MarkTouchesOneCell` | rust/wslterm-core/src/screen.rs:273-295 | a combining mark changes the text of no live cell but the one it joins |
| `Combining.MarkJoinsBase` | rust/wslterm-core/src/screen.rs:273-295 | the base cell gains exactly the mark, unless the pool or its string is full |
| `Combining.ResetIds` | rust/wslterm-core/src/screen.rs:645-648 | after a reset no live cell carries an id, so clearing the pool is safe |
| `Combining.AltIds` | rust/wslterm-core/src/screen.rs:653-668 | stale ids on the alternate grid never come back, because entering it wipes it |
| `Alternate.AlternateIsolates` | rust/wslterm-core/src/screen.rs:653-668 | for every byte stream: while the alternate screen stays active the primary grid and the log of history lines do not change |
| `Alternate.AlternateRestores` | rust/wslterm-core/src/screen.rs:653-668 | entering, running anything and leaving shows the primary screen unchanged, with its cursor and rendition unless the program saved a cursor over them |
| `ResetLaws.ResetIsFresh` | rust/wslterm-core/src/screen.rs:624-649 | what is visible right after a reset is what a fresh terminal shows if and only if it is not done from the alternate screen or the cursor state saved on entry was the initial one |
| `ResetLaws.ResetRestores` | rust/wslterm-core/src/screen.rs:624-649 | a reset gives back the initial visible state, tab stops and saved cursor if and only if tab stops and saved cursor were the initial ones before it |
| `ResetLaws.ResetKeepsTabs` | rust/wslterm-core/src/screen.rs:624-649 | a concrete reset on the primary screen after CSI 3 g: the screen looks fresh, and a tab runs to column 79 instead of 8 |
| `Likeness.FullResetAlike` | rust/wslterm-core/src/screen.rs:624-649 | two screens that agree on all that can be seen or brought to light still do after a reset of both |
| `ResetRuns.StepSame` | rust/wslterm-core/src/parser.rs:102-377 | every byte in every parser state keeps two such terminals alike, replies and requests included |
| `ResetRuns.StayAlike` | rust/wslterm-core/src/parser.rs:77-113 | so does every run of output and resizes |
| `ResetRuns.ResetForGood` | rust/wslterm-core/src/parser.rs:206-209 | after ESC c no run of output and resizes ever tells the terminal from a new one of its size, holding the same title, directory, clipboard request and pending replies, if and only if it had the initial saved cursor, character sets and tab stops between the first and last column: what a reset does not restore always shows for some run |
| `ResetRuns.ResetIsNew` | rust/wslterm-core/src/parser.rs:206-209 | against a wholly new terminal, if and only if besides no title, directory, clipboard request or reply was held, which a reset does not clear either |
| `ResetLaws.ResetFromAlternate` | rust/wslterm-core/src/screen.rs:637-644 | a concrete screen on which a reset does not home the cursor |
| `Editing.EraseDisplayExactly` | rust/wslterm-core/src/screen.rs:495-530 | an erase blanks exactly the cells at or after, at or before, or regardless of the cursor in reading order, and no other |
| `Editing.EraseLineExactly` | rust/wslterm-core/src/screen.rs:482-494 | within the cursor row only, the same |
| `Editing.EraseCharsExactly` | rust/wslterm-core/src/screen.rs:533-541 | exactly the cells from the cursor to the machine-word sum of column and count are blanked |
| `Editing.DeleteUndoesInsertChars` | rust/wslterm-core/src/screen.rs:543-570 | deleting just-inserted characters restores the row but for the cells pushed past the edge |
| `Editing.DeleteUndoesInsertLines` | rust/wslterm-core/src/screen.rs:571-597 | deleting just-inserted lines restores the grid but for the rows pushed past the margin; outside the margins both do nothing |
| `Editing.ScrollDownUndoesUp` | rust/wslterm-core/src/screen.rs:396-437 | scrolling down restores all rows but those that left, which are in history when the region starts at the top of the primary screen |
| `Editing.ReverseUndoesIndex` | rust/wslterm-core/src/screen.rs:375-390 | away from the margins reverse index undoes index |
| `Editing.TabFindsNextStop` | rust/wslterm-core/src/screen.rs:347-358 | a tab goes to the nearest stop to the right, skipping none, or to the last column |
| `ParserMachine.VtParser.Parse` | rust/wslterm-core/src/parser.rs:77-100 | the fast path over runs of printable ASCII and the byte-by-byte machine together equal the fold of single steps over the data |
| `ParserMachine.VtParser.Step` | rust/wslterm-core/src/parser.rs:102-113 | each byte is handled by the state it finds, as the step function says; the screen invariant, equal lengths of parameters and colon flags, and UTF-8 bytes pending only in Ground are kept |
| `ParserMachine.VtParser.Ground` | rust/wslterm-core/src/parser.rs:115-146 | the UTF-8 decoder consumes, resynchronises or prints a replacement, as the step function says |
| `ParserMachine.VtParser.C0` | rust/wslterm-core/src/parser.rs:148-160 | control bytes act on the screen as the step function says |
| `ParserMachine.VtParser.Print` | rust/wslterm-core/src/parser.rs:162-168 | line-drawing substitution, then one printed code point |
| `ParserMachine.VtParser.Escape` | rust/wslterm-core/src/parser.rs:170-224 | escape sequences: mode of the parser, character sets, and screen operations |
| `ParserMachine.VtParser.FlushParam` | rust/wslterm-core/src/parser.rs:255-261 | the current parameter and its colon flag join the lists, which stay equally long |
| `ParserMachine.VtParser.Csi` | rust/wslterm-core/src/parser.rs:263-294 | digits accumulate with 32-bit wrap-around, separators flush, a final byte dispatches |
| `ParserMachine.VtParser.DispatchCsi` | rust/wslterm-core/src/parser.rs:318-377 | the table from final byte and parameters to screen operation and reply |
| `ParserMachine.VtParser.DecModes` | rust/wslterm-core/src/parser.rs:387-411 | private modes are set or reset in list order |
| `ParserMachine.VtParser.Osc` | rust/wslterm-core/src/parser.rs:429-439 | bytes collect until BEL or ESC |
| `ParserMachine.VtParser.OscEsc` | rust/wslterm-core/src/parser.rs:441-449 | backslash ends the string; any other byte is taken as a new escape sequence |
| `ParserMachine.VtParser.OscDone` | rust/wslterm-core/src/parser.rs:451-498 | title, directory, clipboard and prompt requests are read off the lossily decoded string |
| `ParserMachine.Terminal.Feed` | rust/wslterm-core/src/terminal.rs:34-52 | one feed parses into cleared sinks, appends replies and lets the last title, directory and clipboard request win |
| `ParserMachine.Terminal.TakeClipboard` | rust/wslterm-core/src/terminal.rs:56-58 | the pending clipboard request is handed over once |
| `ParserMachine.Terminal.CaptureViewport` | rust/wslterm-core/src/terminal.rs:109-111 | the view is the screen's |
| `Feeding.ChunkInvariance` | rust/wslterm-core/src/terminal.rs:34-52 | feeding a ++ b leaves the same screen, parser, title, directory, clipboard request and replies as feeding a and then b |
| `Feeding.AnyChunking` | rust/wslterm-core/src/parser.rs:77-113 | any way of cutting a stream into feeds gives the same terminal |
| `Feeding.After` | rust/wslterm-core/src/parser.rs:102-377 | after any interleaving of output and resizes from a safe terminal both grids are rows x cols, the cursor and scroll region inside, tab stops as many as columns, parameter and flag lists equally long, and UTF-8 bytes pending only in Ground |
| `Feeding.StepSinks` | rust/wslterm-core/src/parser.rs:102-113 | what a byte adds to the sinks does not depend on what they held |
| `ScreenOps.StepOps` | rust/wslterm-core/src/parser.rs:102-377 | every byte in every parser state acts on the screen by a list of thirteen primitive operations, and no byte both leaves and enters the alternate screen |
| `Sequences.TextPrinted` | rust/wslterm-core/src/parser.rs:115-146 | from any ground state, a truncated sequence pending or not, UTF-8 text prints exactly its scalars in order and ends in ground with nothing pending |
| `Sequences.LossyUndoesEncode` | rust/wslterm-core/src/parser.rs:451-460 | lossy decoding loses nothing of well-formed UTF-8 |
| `Sequences.TitleArrives` | rust/wslterm-core/src/parser.rs:451-470 | a title request sets the title to exactly its text and leaves the screen alone |
| `Sequences.ParamsArrive` | rust/wslterm-core/src/parser.rs:255-294 | any list of 32-bit parameters with ; and : between, rendered in decimal, dispatches with exactly that list and its colon flags |
| `Sequences.ReportRestoresCursor` | rust/wslterm-core/src/parser.rs:413-419 | the numbers of a cursor report sent back as a cursor request restore the reported cursor if and only if origin mode is off, or the region starts at the top and covers the row, or the row is its last |
| `Text.PercentDecode` | rust/wslterm-core/src/parser.rs:547-563 | the decoding loop equals the recursive meaning of percent escapes |
| `Base64.B64` | rust/wslterm-pty/src/process.rs:91-103 | the chunk loop computes the encoding of section 4 of RFC 4648 |
| `Base64.Decode` | rust/wslterm-core/src/parser.rs:512-537 | the loop with the unmasked 32-bit accumulator computes the decoder function |
| `Base64.RoundTrip` | rust/wslterm-core/src/parser.rs:512-537 | decoding an encoding gives back every byte string |
| `Base64.InsertSkipped` | rust/wslterm-core/src/parser.rs:512-537 | white space inserted anywhere does not change the result |
| `Base64.DecodesExactlyPlain` | rust/wslterm-core/src/parser.rs:512-537 | decoding succeeds if and only if every character is in the alphabet, padding or white space |
| `Wire.Le32Read` | native/wslptyd.c:187-188 | reading four bytes gives n if and only if they are the little-endian bytes of n |
| `Wire.DecodeUndoesEncode` | rust/wslterm-pty/src/protocol.rs:29-38 | frames written back to back are decoded exactly, and an unfinished tail is kept |
| `Wire.EncodeUndoesDecode` | native/wslptyd.c:208-243 | the decoded frames and the kept tail are the bytes that came in, and less than one frame is kept |
| `Wire.DecodeResumes` | native/wslptyd.c:208-243 | decoding may stop at any byte and resume with the kept tail |
| `Wire.FramesArrive` | native/wslptyd.c:208-243 | any frames cut into reads in any way arrive exactly, in order, with nothing left over |
| `Wire.PartOfStream` | native/wslptyd.c:208-243 | in the middle of a stream the frames handled are a prefix and the bytes kept a proper prefix of the next frame |
| `Wire.KeptIsSmall` | rust/wslterm-pty/src/protocol.rs:24 | a peer that keeps its payloads within the limit never makes the daemon hold a full frame more |
| `Wire.OpenArrives` | rust/wslterm-pty/src/protocol.rs:41-51 | the daemon reads columns and rows (at least 1), directory and empty shell back from the host's payload; the directory is unchanged if and only if it has no NUL |
| `Wire.StepOver` | native/wslptyd.c:240 | the 32-bit step over a frame lands behind it if and only if header and length stay below 2^32; at 2^32 - 9 it does not move |
| `Wire.ReadsInside` | native/wslptyd.c:190-206 | every byte the daemon reads of an OPEN payload lies inside it if and only if neither length field, added to its offset, reaches 2^32 with a wrapped sum the payload could hold |
| `Wire.LongestDirectory` | native/wslptyd.c:194-199 | the input that breaks it: any payload whose first length field is 2^32 - 1 |
| `Transport.EmitsCapacity` | native/wslptyd.c:91-114 | a write loop delivers everything up to the first call that stops it, however the calls cut the data |
| `Transport.Conn.SendFrame` | native/wslptyd.c:91-114 | under every schedule of partial, interrupted and failing gathered writes the bytes sent are a prefix of header and payload, and all of them unless a call stops the loop |
| `Transport.Advance` | native/wslptyd.c:107-112 | stepping over w written bytes leaves exactly the bytes not yet written in the vectors |
| `Transport.Conn.WriteFrame` | rust/wslterm-pty/src/protocol.rs:29-38 | success means the whole frame was written, failure a proper prefix of it |
| `Transport.Conn.WriteN` | native/wslptyd.c:80-89 | the write loop sends what the schedule lets through and reports a short count |
| `Transport.Conn.SpliceDrain` | native/wslptyd.c:247-255 | exactly the bytes that left the pipe reached the connection, and success means all n |
| `Transport.Conn.ForwardSpliced` | native/wslptyd.c:260-273 | on a connection that does not stop, the spliced path sends the same bytes as the copying path and leaves the pipe empty |
| `Transport.ReadsExactly` | rust/wslterm-pty/src/protocol.rs:69-80 | an exact read succeeds if and only if the bytes are there and the schedule lets them through |
| `Transport.Source.ReadFull` | rust/wslterm-pty/src/protocol.rs:69-80 | the loop fills the buffer with the next bytes of the stream, or reports end or error |
| `Transport.Source.ReadFrame` | rust/wslterm-pty/src/protocol.rs:85-104 | a frame is returned only if it stands whole at the front of the stream, on a reliable connection exactly then unless it is over the limit; the scratch buffer never shrinks |
| `Transport.LimitsKept` | rust/wslterm-pty/src/protocol.rs:24 | frames within the limit are never refused |
| `DaemonMachine.Daemon.FindSess` | native/wslptyd.c:118-122 | the loop finds the first slot holding the live session |
| `DaemonMachine.Daemon.FreeSlot` | native/wslptyd.c:124-128 | the loop finds the first free slot |
| `DaemonMachine.Daemon.EndSess` | native/wslptyd.c:131-143 | hang-up if asked, reap, free the slot, then one EXIT frame |
| `DaemonMachine.Daemon.OpenSess` | native/wslptyd.c:145-180 | a duplicate id is ignored, a full table or failed fork answers EXIT 127, otherwise a slot is taken; 0 columns or rows mean 80 and 24 |
| `DaemonMachine.Daemon.HandleOpen` | native/wslptyd.c:190-206 | for every payload the fields are read with the 32-bit length checks of the source; a read past the payload is recorded as a fault |
| `DaemonMachine.Daemon.Dispatch` | native/wslptyd.c:225-239 | each frame of any type and payload does what the dispatch function says |
| `DaemonMachine.Daemon.FeedStdin` | native/wslptyd.c:208-243 | one read's bytes, appended to those kept, are decoded and handled frame by frame in order, and the rest is moved to the front of the buffer |
| `DaemonMachine.Daemon.ForwardMaster` | native/wslptyd.c:260-283 | splice first, read where splicing is not supported from then on; the host sees the same frame, and end of output ends the session |
| `DaemonMachine.Daemon.HostGone` | native/wslptyd.c:333-336 | every live session is ended |
| `DaemonModel.EndSessEnds` | native/wslptyd.c:131-143 | the id leaves the live set and exactly one EXIT with the shell's code is sent |
| `DaemonModel.OpenOpens` | native/wslptyd.c:145-180 | an id that is not live becomes live silently, or is answered EXIT 127 exactly when all 256 slots are taken or the fork fails |
| `DaemonModel.OthersClose` | native/wslptyd.c:225-239 | only CLOSE of a live id ends a session or sends anything |
| `DaemonModel.FullTable` | native/wslptyd.c:124-128 | no slot is free if and only if the number of live ids is the number of slots |
| `DaemonModel.ReadsDoNotMatter` | native/wslptyd.c:208-243 | a frame list has the same effect on the daemon however its bytes are cut into reads |
| `DaemonModel.FaultsExactly` | native/wslptyd.c:190-239 | over any list of frames the daemon reads outside a frame if and only if one of them is an OPEN with a length that wraps |
| `Helper.Control.FeedFrames` | native/wslpty.c:72-128 | one read's bytes are scanned and every complete command carried out, up to the first write to the terminal that fails, which is reported; without one the rest is kept at the front |
| `Helper.ReadsDoNotMatter` | native/wslpty.c:72-128 | with a terminal that stops taking bytes at any point, the commands carried out are the same however the input is cut into reads |
| `Helper.AnyReads` | native/wslpty.c:72-128 | any bytes, garbage included, give the same commands however they are cut into reads |
| `Helper.CommandsArrive` | native/wslpty.c:72-128 | every command arrives exactly and in order whatever unknown bytes lie between |
| `ProtocolModel.SaneNext` | rust/wslterm-pty/src/mux.rs:41-49 | every step of host, daemon and reader is defined wherever it is enabled, and frames in flight stay well formed |
| `MuxMachine.WslMux.WriteFrame` | rust/wslterm-pty/src/mux.rs:41-49 | nothing is written once dead; otherwise one whole frame, or a proper prefix of it and the mux is dead; decoding the connection gives exactly the frames written and at most one torn frame |
| `MuxMachine.WslMux.Open` | rust/wslterm-pty/src/mux.rs:114-119 | the next id joins the live set, then the request is written |
| `MuxMachine.WslMux.Close` | rust/wslterm-pty/src/mux.rs:133-136 | the request is written, then the id leaves the live set |
| `MuxMachine.WslMux.SendData` | rust/wslterm-pty/src/mux.rs:121-123 | one DATA frame of the session is written, or nothing once dead |
| `MuxMachine.WslMux.SendResize` | rust/wslterm-pty/src/mux.rs:124-129 | one RESIZE frame with both sizes is written, and none when either is zero |
| `MuxMachine.WslMux.ReaderLoop` | rust/wslterm-pty/src/mux.rs:153-191 | the events are those of the frames read, in order, then one Exit of code -1 for each session still live; on a reliable connection all frames of the stream are read |
| `MuxMachine.OpenIsSteps` | rust/wslterm-pty/src/mux.rs:114-119 | a call to open, run alone, is the run of its atomic steps in the step system, failing or not |
| `MuxMachine.CallIsSteps` | rust/wslterm-pty/src/mux.rs:121-136 | so are the other calls |
| `Protocol.StepKeeps` | rust/wslterm-pty/src/mux.rs:114-191 | each atomic step keeps the invariant across the mux, the frames in flight and the daemon |
| `Protocol.AtMostOneExit` | rust/wslterm-pty/src/mux.rs:153-191 | over every interleaving and disconnection, nothing about a session follows its Exit on the event channel |
| `Protocol.ClosedIsNotLost` | rust/wslterm-pty/src/mux.rs:133-136 | once a close has taken its session out of `live`, before any drain began, no later run reports that session as lost: an Exit it still gets has the code the daemon reported |
| `Protocol.DeadWritesNothing` | rust/wslterm-pty/src/mux.rs:41-49 | once the mux is dropped, its reader has stopped or a write has failed, only calls that had already looked at `dead` still write their frames, over every later run |
| `Protocol.NothingAfterFailure` | rust/wslterm-pty/src/mux.rs:41-49 | no frame follows one whose write failed in the middle, calls coming one at a time from the thread that owns the mux |
| `Protocol.EveryEarlySessionExits` | rust/wslterm-pty/src/mux.rs:185-190 | when the reader has finished, a session put in the live set before the drain and never closed by the owner has had its Exit, and one opened later has had no event at all |
| `Protocol.LateOpenRuns` | rust/wslterm-pty/src/mux.rs:185-190 | a concrete run with such a late session: it stays in the live set and has no event |
| `Protocol.EventsInOrder` | rust/wslterm-pty/src/mux.rs:153-184 | the owner's events are the daemon's messages in order, then one Exit of code -1 per session left at the drain; every other Exit carries the daemon's code |
| `Layouts.SplitInserts` | rust/wslterm/src/main.rs:485-508 | a split puts the new pane right after its target and changes nothing else; without the target the pane is handed back |
| `Layouts.RemoveKeepsRest` | rust/wslterm/src/main.rs:539-565 | removal deletes the session's panes, keeps the order of the rest, leaves no placeholder, and yields nothing exactly when no other pane is left |
| `Layouts.RemoveAbsent` | rust/wslterm/src/main.rs:539-565 | removing a session that is not there changes nothing if and only if the tree has no placeholder |
| `Layouts.RemoveUndoesSplit` | rust/wslterm/src/main.rs:485-565 | removing a freshly split-in pane gives back the original tree exactly |
| `Layouts.ResizeMovesNearest` | rust/wslterm/src/main.rs:516-535 | exactly the ratio of the nearest ancestor of the wanted orientation changes, or nothing |
| `Layouts.NearestIs` | rust/wslterm/src/main.rs:510-515 | that ancestor is the deepest one on the way to the pane |
| `Layouts.ResizeKeeps` | rust/wslterm/src/main.rs:516-535 | panes stay in place and every ratio stays within [0.1, 0.9] |
| `Layouts.PanesTile` | rust/wslterm/src/main.rs:413-443 | each point of the area is in exactly one pane or on a divider, and no pane or divider leaves the area |
| `Layouts.PanesApart` | rust/wslterm/src/main.rs:413-443 | no two pane rectangles overlap |
| `Layouts.RectsInOrder` | rust/wslterm/src/main.rs:413-443 | there is one rectangle per pane, in the order of collect_sessions |
| `Layouts.FindFinds` | rust/wslterm/src/main.rs:445-451 | find succeeds if and only if the session is in the tree |
| `Layouts.FirstIsFirst` | rust/wslterm/src/main.rs:465-471 | first_session is the first of collect_sessions |
| `Layouts.OutIds.Collect` | rust/wslterm/src/main.rs:472-481 | the walk appends the sessions of the tree in order |
| `Layouts.OutRects.LeafRects` | rust/wslterm/src/main.rs:413-443 | the walk appends one placed rectangle per pane |
| `SessionMachine.Application.AddTab` | rust/wslterm/src/main.rs:1617-1635 | a new session is registered and owned by a new active tab |
| `SessionMachine.Application.SplitFocused` | rust/wslterm/src/main.rs:1674-1693 | a new session is registered and split in beside the focused pane, which it takes the focus from |
| `SessionMachine.Application.CloseSession` | rust/wslterm/src/main.rs:1713-1753 | the first tab holding the session loses that pane; the last pane takes the tab, the last tab the window; the session leaves the registry and is closed unless it exited |
| `SessionMachine.Application.CloseWholeTab` | rust/wslterm/src/main.rs:1801-1824 | every session of the tab is closed and unregistered in order, then the tab goes |
| `SessionMachine.Application.CloseAllSessions` | rust/wslterm/src/main.rs:988-1000 | every session still owned by a window is closed and unregistered |
| `SessionMachine.Application.MoveTabToNewWindow` | rust/wslterm/src/main.rs:1598-1614 | the tab is detached with its sessions, at most one at a time |
| `SessionMachine.Application.SessionExit` | rust/wslterm/src/main.rs:3439-3445 | every window is asked in turn; those without the session do nothing |
| `SessionMachine.Application.Reconcile` | rust/wslterm/src/main.rs:3885-3909 | detached tabs get windows of their own, then closing windows are dropped with all they still own |
| `SessionMachine.Application.ResizeFocused` | rust/wslterm/src/main.rs:1699-1709 | the divider nearest to the focused pane moves by one step |
| `SessionLaws.FocusNamesPane` | rust/wslterm/src/main.rs:1512-1519 | the focused session is the tab's focus and names a pane of its tree |
| `SessionLaws.StepKeeps` | rust/wslterm/src/main.rs:3885-3909 | every event followed by reconcile keeps the books and leaves every window with a tab, none closing, none detached |
| `SessionLaws.RegistryIsUnion` | rust/wslterm/src/main.rs:1577-1583 | the registry is the union of the sessions of all windows, none of them twice |
| `SessionLaws.BooksBalance` | rust/wslterm/src/main.rs:1713-1753 | over every run of user actions and shell exits the registry is the disjoint union of the windows' sessions, each session ever opened is registered or closed once or exited, and stored trees have no placeholder, bounded ratios and a valid focus |
| `Wakeup.StepKeeps` | rust/wslterm/src/main.rs:3770-3818 | each atomic step of the feed thread and the UI keeps the flag, queue, outbox and reply invariant |
| `Wakeup.OneRedrawOnItsWay` | rust/wslterm/src/main.rs:3813-3818 | over every interleaving the flag is set if and only if one Redraw is about to be sent, queued, or received and not acknowledged, or the event loop was gone when one was sent; and every session's replies, sent or on their way, are its terminal's in order |
| `Wakeup.NoLostWakeup` | rust/wslterm/src/main.rs:3424-3431 | when both threads are idle and no Redraw is queued, the outbox is empty, all replies have been sent and a tick has come after everything fed; when no frame is wanted either, a render has |
| `Wakeup.FeedReplies` | rust/wslterm/src/main.rs:3780-3786 | the reply taken after a feed is exactly what a terminal whose replies are never taken would have gained, and title and directory are the same in both |
| `Wakeup.NoticesArrive` | rust/wslterm/src/main.rs:3790-3796 | over every interleaving, exits, distro names and the end of the channel reach the UI each once and in the order received: those taken so far, then those still queued |
| `Wakeup.FrameWanted` | rust/wslterm/src/main.rs:3424-3431 | over every interleaving a frame is wanted if and only if a tick has come that no render has followed |
| `Hearing.FedExactly` | rust/wslterm/src/main.rs:3774-3788 | output is fed if and only if its session is registered when the event is received; otherwise it is dropped |
| `Hearing.TerminalIsHeard` | rust/wslterm/src/main.rs:3770-3788 | over every run a session's terminal has taken exactly the output received while the session was registered, and its resizes, in order |
| `Hearing.LostExactly` | rust/wslterm/src/main.rs:3774-3788 | none of a session's output is lost if and only if none is received while it is not registered |
| `Hearing.OutputLost` | rust/wslterm/src/main.rs:1577-1583 | a run that loses output: the shell's first bytes arrive after the session was asked for and before it is registered |
| `Glyphs.PrintedExactly` | rust/wslterm-core/src/screen.rs:298-334 | a glyph of any width, printed at the cursor in any mode: its lead cell at the cursor, for a wide one the slot behind it, in insert mode the cells from the cursor on moved right by its width, every other cell, row and field unchanged, and the cursor moved on by its width, or pending in the last column with auto-wrap |
| `Glyphs.WrapsFirst` | rust/wslterm-core/src/screen.rs:296-306 | a glyph that a pending wrap, or a wide one that the last column, keeps from being printed there is printed after a carriage return and a line feed |
| `Glyphs.WideWraps` | rust/wslterm-core/src/screen.rs:303-306 | a wide glyph in the last column leaves that column alone and takes the first two columns of the next line |
| `Glyphs.GlyphThenMark` | rust/wslterm-core/src/screen.rs:273-295 | a glyph and then a combining mark leave one cell that reads as the two |
| `Glyphs.SomeWidths` | rust/wslterm-core/src/charwidth.rs:4-43 | widths of whole blocks: Latin, Greek, ideographs, kana, Hangul, full-width forms, emoji, accents, selectors and control characters |
| `WideText.WideWrap` | rust/wslterm-core/src/screen.rs:298-334 | text of narrow and wide glyphs, fed as UTF-8 to a fresh screen of any size: every glyph is at its line and column, a wide one with its slot behind it and never split by the edge, every other cell is blank, and history, line counter and cursor are where the text ends |
| `WideText.ColumnIsSum` | rust/wslterm-core/src/screen.rs:298-334 | a glyph's column is the sum of the widths before it on its line |
| `WideText.WideReadsBack` | rust/wslterm-core/src/screen.rs:782-819 | each line of such text reads back as its glyphs in order, wide ones once |
| `Views.ViewIsPart` | rust/wslterm-core/src/screen.rs:744-757 | the picture at an offset is the stretch of kept lines and grid rows that starts that many lines above the grid, or at the oldest line kept, in order |
| `Views.ViewIsLine` | rust/wslterm-core/src/screen.rs:744-780 | each row shown is the line text extraction reads at that place |
| `Views.UnscrolledShowsGrid` | rust/wslterm-core/src/screen.rs:744-757 | at offset 0 the picture is the active grid |
| `Views.ScrollShiftsView` | rust/wslterm-core/src/screen.rs:744-757 | one line further back moves every row down by one and brings in the next older line |
| `Views.ScrollMoves` | rust/wslterm/src/main.rs:2372-2385 | scrolling moves the offset by as many lines, stopping at the oldest line and at the grid, and scrolling back undoes it unless it stopped |
| `Selections.SelectionReadsBack` | rust/wslterm-core/src/screen.rs:782-819 | any part of what was typed, from any column of one line to any column of another and given in either direction, reads back as that part, each line trimmed and joined by CR LF |
| `Selections.TrimMeans` | rust/wslterm-core/src/screen.rs:810-819 | trimming takes away exactly the spaces at the end |
| `Rendition.LastCodeCounts` | rust/wslterm-core/src/screen.rs:672-732 | over any list of plain codes an attribute is on afterwards if and only if some code sets it and none after that clears it, or it was on and none clears it; each colour is the one the last code that names it picks, or unchanged |
| `Rendition.ColonsBelong` | rust/wslterm-core/src/screen.rs:683-701 | parameters after a colon are skipped, except that 4:0 ends underlining |
| `Rendition.ColourTaken` | rust/wslterm-core/src/screen.rs:717-718 | 38 and 48 take a palette index or red, green and blue from the parameters behind them and go on after those; a list that ends too soon changes no colour |
| `Sizes.FreshExactly` | rust/wslterm-core/src/screen.rs:122-157 | a new screen, cell by cell and field by field |
| `Sizes.ResizeExactly` | rust/wslterm-core/src/screen.rs:235-266 | every cell of both grids after a change of size, the cursor, region and tab stops; everything else stays |
| `Sizes.GrowAndShrink` | rust/wslterm-core/src/screen.rs:235-266 | growing and shrinking back gives every cell, and the cursor, back |
| `Sizes.MarksReported` | rust/wslterm-core/src/screen.rs:208-218 | a prompt mark is reported at a row if and only if a mark with that status lies on the line kept or shown there |
| `Sizes.MarksKept` | rust/wslterm-core/src/screen.rs:184-186 | of the marks those on lines still kept stay, and no others |
| `Controls.CursorAlongRow` | rust/wslterm-core/src/parser.rs:335-345 | C, a, D, G and ` move the cursor along its row to the column that their count says, from the bytes sent |
| `Controls.CursorAcrossRows` | rust/wslterm-core/src/parser.rs:333-346 | A, B, e, E, F and d move it across rows, within the region in origin mode, E and F to the first column |
| `Controls.CursorToCell` | rust/wslterm-core/src/parser.rs:347 | H and f move it to a row and column counted from 1, within the region in origin mode |
| `Controls.RegionSet` | rust/wslterm-core/src/parser.rs:357-360 | r sets the region to rows top to bottom if these are at least two rows of the screen, otherwise to the whole screen, and homes the cursor |
| `Controls.InsertModeSet` | rust/wslterm-core/src/parser.rs:379-385 | 4 h and 4 l set and end insert mode |
| `Controls.TabsCleared` | rust/wslterm-core/src/parser.rs:366-372 | g takes away the tab stop at the cursor, 3 g all of them |
| `Controls.CursorSaved` | rust/wslterm-core/src/parser.rs:373-374 | s and u save cursor, rendition and origin mode and bring them back inside the screen |
| `Controls.RenditionSet` | rust/wslterm-core/src/parser.rs:361 | m changes the rendition by its list of codes and nothing else |
| `Controls.PrivateModeSet` | rust/wslterm-core/src/parser.rs:387-411 | each private mode sets or resets its own flag, homes the cursor (6), or goes to a wiped alternate screen and back (47, 1047, 1049), and changes nothing else |
| `Controls.Answers` | rust/wslterm-core/src/parser.rs:413-427 | the bytes answered to 5 n, 6 n and c |
| `Controls.ControlBytes` | rust/wslterm-core/src/parser.rs:148-160 | BS, CR, SO and SI, and the control bytes that do nothing |
| `Controls.TabByte` | rust/wslterm-core/src/parser.rs:151 | HT goes to the nearest stop behind the cursor, or the last column |
| `Controls.ShortEscapes` | rust/wslterm-core/src/parser.rs:192-224 | ESC 7, 8, =, > and H |
| `Controls.SetChosen` | rust/wslterm-core/src/parser.rs:226-243 | ESC ( and ESC ) with 0, A or B choose the character sets, anything else leaves them |
| `Controls.LineDrawing` | rust/wslterm-core/src/parser.rs:162-168 | line drawing replaces the characters from ` to ~ while its set is shifted in, and no other |
| `EditControls.EditsExactly` | rust/wslterm-core/src/parser.rs:350-356 | @, P, X, L, M, S and T, from their bytes: where every cell of the grid comes from, which rows S puts into history, and that nothing else changes |
| `EditControls.ErasesExactly` | rust/wslterm-core/src/parser.rs:348-349 | J and K, from their bytes: which cells are blanked, that 3 J clears history and marks, and that nothing else changes |
| `EditControls.DownExactly` | rust/wslterm-core/src/screen.rs:375-382 | a line down: at the bottom of the region every cell moves up and a row may join history, elsewhere the cursor moves unless it is in the last row |
| `EditControls.UpExactly` | rust/wslterm-core/src/screen.rs:383-390 | a line up: at the top of the region every cell moves down, elsewhere the cursor moves unless it is in the first row |
| `EditControls.LineFeeds` | rust/wslterm-core/src/parser.rs:152-204 | which bytes and escapes do that, and ESC E first returns to column 0 |
| `Streams.StrayByte` | rust/wslterm-core/src/parser.rs:125-146 | a byte no sequence starts with prints U+FFFD |
| `Streams.CutShort` | rust/wslterm-core/src/parser.rs:115-124 | a byte that cannot continue a sequence drops it and counts as if nothing came before |
| `Streams.InsideSequence` | rust/wslterm-core/src/parser.rs:263-268 | a control byte inside a control sequence acts at once and the sequence goes on |
| `Streams.LongNumber` | rust/wslterm-core/src/parser.rs:270-276 | digits of any length are read modulo 2^32 as a signed number |
| `Streams.IntermediatesIgnored` | rust/wslterm-core/src/parser.rs:286-303 | bytes from space to slash between the parameters and the final byte do not change what a sequence does |
| `Streams.PrivateModesSet` | rust/wslterm-core/src/parser.rs:387-411 | a list of private modes is set or reset one after the other |
| `Streams.MarkedIgnored` | rust/wslterm-core/src/parser.rs:323-330 | sequences marked with < = or > never change the screen, and answer c only |
| `Streams.UnknownIgnored` | rust/wslterm-core/src/parser.rs:332-391 | final bytes without a meaning do nothing |
| `Streams.StringIgnored` | rust/wslterm-core/src/parser.rs:500-507 | device control and other strings are skipped to their end |
| `Streams.FeedHandsOver` | rust/wslterm-core/src/terminal.rs:34-52 | a feed adds its replies to those waiting and replaces title, directory and clipboard text by those that came |
| `Requests.TitleSet` | rust/wslterm-core/src/parser.rs:451-466 | commands 0, 1 and 2 set the title to their text, ended by BEL or ESC backslash |
| `Requests.DirectorySet` | rust/wslterm-core/src/parser.rs:467-471 | command 7 with the percent-encoded URI of any path on any host sets the directory to exactly that path |
| `Requests.ClipboardSet` | rust/wslterm-core/src/parser.rs:475-484 | command 52 with the base64 of any text hands over exactly that text; a question mark asks and is not answered |
| `Requests.PromptMarked` | rust/wslterm-core/src/parser.rs:488-491 | command 133 ; A marks a prompt |
| `Requests.ExitRecorded` | rust/wslterm-core/src/parser.rs:492-495 | command 133 ; D ; n gives the latest mark the status n if it has none, for every n, and changes nothing else |
| `Requests.PaddedCode` | rust/wslterm-core/src/parser.rs:488-491 | the status is read between any white space and before further fields |
| `Requests.WhiteIsSpace` | rust/wslterm-core/src/parser.rs:490 | white space is what Unicode calls so, code point by code point |
| `Malformed.FirstMeans` | rust/wslterm-core/src/parser.rs:451-456 | lossy decoding takes the scalar whose encoding stands at the front, and where none does, U+FFFD for the longest part that begins one, or for one byte |
| `Base64.Alphabet` | rust/wslterm-pty/src/process.rs:91-103 | the alphabet of table 1 of RFC 4648 |
| `Delivery.BytesDelivered` | rust/wslterm-pty/src/mux.rs:153-184 | over every run the owner has, for each session, exactly the bytes of the DATA frames read, in order, and exactly the names announced |
| `Delivery.OutputArrives` | native/wslptyd.c:260-283 | over every run what the owner has of a session is a prefix of what its terminal gave, and all of it once every frame is read |
| `Delivery.DataIsWritten` | native/wslptyd.c:228 | a DATA frame for a live session writes exactly its payload to the session's terminal |
| `Delivery.SizeIsSet` | native/wslptyd.c:229-235 | a RESIZE frame sets exactly the columns and rows the host encoded |
| `Delivery.SignalIsSent` | native/wslptyd.c:236 | a SIGNAL frame sends its signal |
| `Delivery.CloseHangsUp` | native/wslptyd.c:237 | a CLOSE frame hangs up |
| `Delivery.OpenSpawns` | native/wslptyd.c:145-206 | an OPEN that is granted starts one shell of the size and in the directory asked for |
| `Delivery.NothingDone` | native/wslptyd.c:225-239 | a frame for no live session, too short, or of an unknown type has no effect |
| `Delivery.KeystrokesArrive` | native/wslptyd.c:208-243 | over any frames what is written to a session's terminal is what came for it while it was live, complete and in order |
| `Delivery.TypingArrives` | rust/wslterm-pty/src/mux.rs:121-123 | whatever is typed into a live session in any parts, sent as DATA frames and cut into reads in any way, is written to its terminal byte for byte |
| `Delivery.KeystrokesOverRuns` | native/wslptyd.c:208-243 | the same over every run of host, daemon and connection |
| `Delivery.EndIsTold` | native/wslptyd.c:131-143 | the owner is told the shell's exit code, 128 and the signal, or 1 |
| `Delivery.RefusalIsTold` | native/wslptyd.c:145-191 | an OPEN too short, or with all 256 slots taken, or whose fork fails, is told as code 127 and starts nothing |
| `Delivery.HeardMeans` | native/wslptyd.c:260-283 | spliced or read, a terminal's bytes are forwarded, an interruption is tried again, and anything else ends the session |
| `Wire.ShellArrives` | native/wslptyd.c:190-206 | an OPEN payload that names a shell is read back with it |
| `Wire.OpenRefused` | native/wslptyd.c:190-195 | a payload is refused if and only if it is shorter than the fixed fields, and dropped if and only if its directory is longer than the frame |
| `Delivery.TooLongIgnored` | native/wslptyd.c:195 | a request whose directory is longer than its frame changes nothing and is not answered |
| `Wire.FrameBytes` | rust/wslterm-pty/src/protocol.rs:8-38 | the bytes of a frame: session and length low byte first, type, payload; and the numbers of the types |
| `Layouts.RatioIsShare` | rust/wslterm/src/main.rs:413-443 | the first side and its divider take the ratio's share of the extent, rounded down, the second side the rest behind it, and the other extent is kept |
| `Layouts.MovingGrowsFirst` | rust/wslterm/src/main.rs:413-443 | a divider moved right or down never shrinks the first side nor grows the second |
| `Layouts.NoPaneEmpty` | rust/wslterm/src/main.rs:413-443 | with ratios in their bounds and a large enough area no pane is empty |
| `Layouts.ClampMeans` | rust/wslterm/src/main.rs:524-528 | a divider goes where it is asked to while both sides keep a tenth, otherwise to the bound it would pass; moving it back undoes the move unless it met a bound |
| `Layouts.SplitShape` | rust/wslterm/src/main.rs:485-508 | the target's place is taken by an even split of the orientation asked for, target first; no other place of the tree changes |
| `SessionEffects.OpenTabDoes` | rust/wslterm/src/main.rs:1617-1635 | the new tab is last, shown, holds one new session, and that session has the keys |
| `SessionEffects.SplitDoes` | rust/wslterm/src/main.rs:1674-1693 | the new session is beside the one that had the keys, and has them; nothing else changes |
| `SessionEffects.ClosePaneDoes` | rust/wslterm/src/main.rs:1713-1738 | the tab keeps its other panes in order, and the keys stay or go to the first pane left |
| `SessionEffects.ShownAfterDrop` | rust/wslterm/src/main.rs:1739-1747 | which tab is shown after one is gone: the one shown stays if and only if the one gone is behind it, or it is last and not the one gone |
| `SessionEffects.ExitedNotClosed` | rust/wslterm/src/main.rs:1724-1729 | a session that exits leaves the registry as a closed one does, and is counted as exited instead of closed |
| `SessionEffects.CloseTabDoes` | rust/wslterm/src/main.rs:1801-1824 | a tab's sessions are closed in order; the last tab takes its window with it |
| `SessionEffects.DetachDoes` | rust/wslterm/src/main.rs:1598-1614 | a tab moved to a new window is that window's only tab, as it was, and gone from the old one |
| `SessionEffects.ChoosingDoes` | rust/wslterm/src/main.rs:1512-1519 | a click gives the keys to the session clicked, a switch shows the tab chosen, and nothing else changes |
| `SessionEffects.DividerDoes` | rust/wslterm/src/main.rs:1699-1709 | the divider nearest to the pane with the keys moves by a twenty-fifth, right or down when positive, and nothing else |
| `SessionEffects.RepaintDoes` | rust/wslterm/src/main.rs:1017-1033 | a repaint brings every pane of every tab up to date: one scrolled back follows the lines scrolled off as far as there is history, others stay; no pane moves, and focus, tab shown and sessions stay |
| `SessionEffects.CloseWindowDoes` | rust/wslterm/src/main.rs:3885-3909 | closing a window closes the sessions of its tabs in order and takes it away |

## Left out

- Rendering, fonts, presentation, background, settings, key and mouse encoding, sidebar, palette, search overlay: user interface, tables or floating point.
- `word_span`, `url_at` and `search` in screen.rs: scans over one line that would add only easy members.
- The document editor (`Doc`): nothing shown opens a document.
- Sockets, the registry scan, process launch, `forkpty`, `poll`, `waitpid` and `splice`: steps of an arbitrary environment, oracle answers or adversarial schedules.
- Screens wider or taller than 2^31 - 1: the source casts grid extents to 32-bit integers.
- Debug-build overflow panics: arithmetic wraps as in a release build.
- The line counter's 64-bit wrap, and mark ids past 32 bits: the pool stops at one million strings.
- Recycling of evicted lines in `scroll_up`: a line is a value, so reuse of its storage is not visible.
- Aliasing of grid rows and pane subtrees: rows and trees are values with one owner, as in the source.
- `Layouts.ResizeSplit`: gives the changed tree instead of writing the ratio in place through owned boxes.
- Pane ratios in 32-bit floating point: ratios are reals and a cut is the floor of extent times ratio.
- `Typing.ReadsBack`: lines are printable ASCII, as for the other printing law; wide glyphs and marks do not round-trip column by column.
- Wide lead and trailing cells as pairs: overwriting half a glyph breaks the pair, so no pairing is claimed.
- `HistoryLaws.RunKeepsHistWide`: old history lines keep their width when the screen is widened, so runs that widen it are excluded; then `ScreenModel.WholeRowsReadable` says which selections can be read.
- `DaemonMachine.Daemon.FeedStdin`: excludes only a complete frame whose 32-bit step wraps (`Wire.StepOver`), where the source steps to a place inside that frame's own header; `Wire.KeptIsSmall` shows a peer within the frame limit never sends one.
- `DaemonMachine.Daemon.HandleOpen`: after a read past the payload the model records a fault and changes nothing else; what the source then does is undefined. The same holds for `DaemonMachine.Daemon.Dispatch` and `DaemonMachine.Daemon.FeedStdin`.
- `DaemonMachine.Daemon.ForwardMaster`: a frame counts as sent when the daemon hands it to the write loop; a connection that fails there is seen by the host as the end of the stream, which the protocol may place after any frame.
- `Helper.Control.FeedFrames`: excludes only DATA whose 32-bit step wraps; a failed write to the terminal is modelled by how many bytes it takes, and the helper's end after it is the caller's.
- Writes of the mux from several threads at once: every call comes from the UI thread, which holds the mux in an `Rc`, so no write is under way when another fails, and `up` in the step system never comes back.
- The pacing of frames, and several windows in the wake-up handshake: one window's tick, wish for a frame and render stand for each window's.
- `writen` to a session's terminal: the daemon's effect is the request; partial writes there are not followed.
- Session ids: the counter is not run past 2^32 - 1, where it would repeat.
- A receiver dropped while the reader still runs: no one is left to see events.
- The bound on the event channel: a full channel only delays the reader.
- Memory limits, timing, liveness under fair scheduling and weak memory: locks and atomics are sequentially consistent steps.
- Clipboard writes and throughput logging in the feed thread: no effect on the modelled state.
- The settings session in `close_session`, search and selection state: user interface.
- An application whose mux failed to start: no window exists then.
