# Verified model of the kernel's terminal, keyboard, shell and printing

The kernel under `src/kernel` shows ten text screens on a VGA display, edits one input line on
each, takes scancodes from a keyboard and a wheel mouse by interrupt, and runs a small shell in
its main loop. This project models that part of it in Dafny and proves what it does for every
input, every run and every interleaving.

## How it is put together

| files | what they hold |
|---|---|
| `Text`, `Tapes`, `Document` | the specification of a screen: an unbounded page of 80 columns, of which a window of H rows is kept and 25 are in view, with an editable line at its end |
| `ScreenBuffer`, `Mem`, `Vga` | the code of `terminal.c` on one screen: a mutable grid, two counters, the text memory and the cursor registers, proved to refine the document step by step |
| `Screens`, `Terminal` | the ten screens that share the display |
| `Editing` | the simple editor (text left and right of a cursor) and the proof that every run of edits on a document is a run of it |
| `Ring`, `Mouse`, `Interrupts`, `Machine` | the scancode ring, the mouse handler, the acknowledgements, and a small-step machine of main loop, handlers, interrupt flag and controllers |
| `Readings` | what the handlers read from the controller, tied to what they offer to the ring |
| `Progress` | from every reachable state the machine gets through its keys and back to sleep |
| `Keyboard`, `Kernel`, `KernelRuns` | key decoding, the shell, and what every run of handled scancodes keeps |
| `KeyRuns`, `ReadRuns` | the modifiers and the layout, and the display while a read waits, over every run |
| `Keystrokes`, `Pages` | what each key does, by its scancode, and what each line does and leaves on the page, by the command's name |
| `EndToEnd`, `Whole` | ten simple editors and a shell with no page, window or display; the kernel, and the machine below it, behave like them |
| `CStrings`, `System` | `keyboard.c` and `shell.c` as methods on a `Console` over the real terminal and ring, proved against the kernel's functions |
| `Digits`, `Printk`, `Directives`, `Putnbr` | number and format printing, with what each directive prints as it is spelled |

Three layers meet on the screen. `Document` says what an operation does in closed form. `Tapes`
says what a sequence of printed characters and cursor moves does; `InsertPrints`,
`BackspacePrints` and `DeletePrints` show that re-printing the tail and stepping back amounts to
the edit. `ScreenBuffer.Screen` does it on the grid, dropping rows and scrolling on the way. A
ghost count of the dropped rows makes positions stable: row `dropped + y` of the page is row `y`
of the buffer.

The two ghost flags `drawn` and `placed` say when the display is known to agree with the current
screen; `Valid` makes them mean it (`drawn` implies that the 25 visible rows of the display equal
the buffer, cell by cell and color by color).

## Where the code and its description differ, and exact conditions

- The comment at `src/kernel/terminal.c:14` speaks of 200 lines of scrollback; the constants
  make a buffer of 35 rows. The height is the parameter H (25 to 256, what an 8-bit row holds)
  and the end-to-end theorem is stated at 35.
- A newline on the last row of a buffer scrolled to its end shifts the rows without redrawing.
  `PutNewline` gives the exact condition under which the display is still right (the visible rows
  repeat), and `RowsDiffer` a family of pages on which it is not. After it `drawn` is false until
  the next printable character. Most output goes on with one; a line that arms a read does not:
  `terminal_end_output(false)` draws nothing, and the kernel rests on a wrong display.
  `EnterArms` and `Execute` say exactly when, `PictureCanBeWrong` gives the keys, and
  `HandleInput`, of the cells, until when: exactly until a key types a character or scrolls up.
- `terminal_clear` does not draw (`Clear` has the condition); the display is right again after
  the next printable character, the prompt.
- `terminal_putnbr_output` prints the number exactly, and computes it without overflow, when its
  absolute value, written backwards, is below 2^31 and the number is not the least one
  (`Putnbr.Fits`), and only then. `NineDigitsFit` gives every number of at most nine digits;
  `TenDigitsMayNotFit` names one that fails. Past an overflow, which C leaves undefined, values
  are taken to wrap in two's complement.
- `printk` is modelled on formats in which every percent sign is completed by a character
  (`Printk.WellFormed`); a width is kept in 32 bits, as in the source.
- That STI takes effect after the next instruction is in the Intel SDM, Vol. 2 (STI, HLT) and
  Vol. 3A, section 6.8.1. It is a parameter of the machine: with it no wake-up is lost, and
  `WithoutDelayAKeyIsLost` gives a run that loses one without it.

## Model

| member | source | states |
|---|---|---|
| ScreenBuffer.Screen.PutScreen | src/kernel/terminal.c:83-97 | afterwards the 25 visible display rows equal the buffer rows from the scroll offset on, whatever was displayed |
| ScreenBuffer.Screen.AlignScrollToCursor | src/kernel/terminal.c:158-168 | the view moves just far enough to contain the cursor row and no further, and the display is redrawn exactly when it moved |
| ScreenBuffer.Screen.MoveScreenUp | src/kernel/terminal.c:142-156 | shifting the rows up is dropping one row off the page: every cell keeps its place on the page, and the new last row is blank in the screen's color |
| ScreenBuffer.Screen.MoveCursor | src/kernel/terminal.c:170-189 | the cursor moves by a signed number of page cells, rows included, with no wrap for targets in the buffer; the view follows |
| ScreenBuffer.Screen.BreakLine | src/kernel/terminal.c:195-222 | a newline blanks the rest of its row on the page, drops a row exactly on the last one, and leaves a right display except when rows shift with the view at the end |
| ScreenBuffer.Screen.PutNewline | src/kernel/terminal.c:195-222 | a newline is that of the print head; where it shifts rows unseen, a display that mirrored the buffer still does if and only if the visible rows of the page repeat one row further down |
| Tapes.RowsDiffer | src/kernel/terminal.c:197-221 | the condition fails for every page whose top visible row differs anywhere from the row below it |
| ScreenBuffer.Screen.PutCell | src/kernel/terminal.c:224-249 | a printable character overwrites one page cell and the display agrees with the buffer and the cursor afterwards, whatever it showed before |
| ScreenBuffer.Screen.StepCursor | src/kernel/terminal.c:231-245 | the step past the cursor cell goes to the next row at column 80 and drops a row exactly at the end of the last one |
| ScreenBuffer.Screen.Putc | src/kernel/terminal.c:191-250 | the grid, cursor, scroll and display after one character are those of the print head on an unbounded page |
| ScreenBuffer.Screen.GetInputAfterCursor | src/kernel/terminal.c:255-263 | the grid cells from the cursor on hold exactly the abstract input after the cursor |
| ScreenBuffer.Screen.PutInputAfterCursor | src/kernel/terminal.c:269-276 | printing a run with blanks after it and stepping back leaves the cursor on the same page position even when rows were dropped on the way |
| Document.InsertPrints | src/kernel/terminal.c:432-454 | printing c and the old tail, then going back, inserts c at the cursor: text, cursor, window and display flags all agree |
| Document.BackspacePrints | src/kernel/terminal.c:486-544 | printing the tail k cells to the left and k blanks deletes the k characters before the cursor, whatever the cells held in between |
| Document.DeletePrints | src/kernel/terminal.c:546-570 | printing the tail without its first k characters, then k blanks, deletes the k characters after the cursor |
| Document.PutPrints | src/kernel/terminal.c:388-391 | in output mode printing a character is appending it to the page |
| Document.BeginOutputPrints | src/kernel/terminal.c:356-370 | going to the end of the input and printing a newline puts the whole input on the page and starts a row after it |
| Document.StepPrints | src/kernel/terminal.c:597-610 | a left or right move is one page position, stays inside the rows kept, and changes no text |
| Document.UpRun | src/kernel/terminal.c:585-590 | any number of Up presses shows that many rows further up, or the top of the buffer, and changes neither text nor cursor |
| Document.DownRun | src/kernel/terminal.c:591-596 | any number of Down presses shows that many rows further down but never past the row of the cursor |
| Document.ViewReturns | src/kernel/terminal.c:585-596 | however far the view was scrolled up, Down brings the cursor back into it, stops there, and never shows rows further down than before |
| Tapes.PrintTwice | src/kernel/terminal.c:269-276 | printing two runs is printing their concatenation: no wrap or dropped row depends on where the loop stops |
| Tapes.PrintAndBackOk | src/kernel/terminal.c:269-275 | a run that ends at most one row below the cursor, then the way back, leaves a valid window that has reached the end of the run and no further |
| ScreenBuffer.Screen.InsertAtCursor | src/kernel/terminal.c:443-450 | the grid after the tail was re-printed is that of the inserted text |
| ScreenBuffer.Screen.PutcInput | src/kernel/terminal.c:432-454 | types one character into the abstract editor, or changes nothing when there is no field or 127 characters are in it |
| ScreenBuffer.Screen.GetInput | src/kernel/terminal.c:456-484 | returns exactly the abstract text and a NUL, leaves the rest of the buffer alone, and fails exactly when there is no field or no room, a size of 2^31 or more counting as negative |
| ScreenBuffer.Screen.EraseBack | src/kernel/terminal.c:508-534 | every cell blanked is in the buffer and not above the view, and the guard for cell (0,0) never ends the loop early |
| ScreenBuffer.Screen.DelInput | src/kernel/terminal.c:486-544 | deletes min(count, cursor) characters before the cursor, for every count; on an empty input, unless the view moves, no cell of the display changes |
| ScreenBuffer.Screen.DelInputForward | src/kernel/terminal.c:546-570 | deletes min(count, characters after the cursor), for every count; on an empty input, unless the view moves, no cell of the display changes |
| ScreenBuffer.Screen.Move | src/kernel/terminal.c:572-615 | each direction has the abstract effect, and the guards stop it at the ends of the input and of the scroll range; on an empty input, unless the view moves, no cell of the display changes |
| ScreenBuffer.Screen.PutPrompt | src/kernel/terminal.c:278-284 | the prompt is appended to the page as two characters |
| ScreenBuffer.Screen.Clear | src/kernel/terminal.c:308-328 | an empty page and field with nothing dropped; nothing is drawn, so the display mirrors the buffer afterwards if and only if its 25 rows were blank in the color of the screen already |
| ScreenBuffer.Screen.BeginOutput | src/kernel/terminal.c:356-370 | the input joins the page, the field closes, and output starts in column 0 of a new row; where rows shift unseen, a right display stays right if and only if the visible rows repeat |
| ScreenBuffer.Screen.EndOutput | src/kernel/terminal.c:372-386 | output ends on a fresh row, then a prompt exactly when asked for, then an empty field; without a prompt and at column 0 the display agrees afterwards exactly if it did before |
| ScreenBuffer.Screen.PutsOutput | src/kernel/terminal.c:424-430 | printing a string is appending its characters one by one to the page |
| ScreenBuffer.Screen.Show | src/kernel/terminal.c:346-351 | drawing the view makes the display agree with any sound screen, whichever was shown before |
| ScreenBuffer.Screen.PictureShown | src/kernel/terminal.c:83-97 | what the display then shows is the page itself: cell i is page cell (dropped + scroll) * 80 + i in the screen's color, blank past its end |
| Document.InputInWindow | src/kernel/terminal.c:119-168 | every row of the input is below the top of the view and inside the buffer, so the 8-bit row never wraps and the scroll-up loop never runs |
| Document.InsertOk | src/kernel/terminal.c:432-454 | the invariant survives a typed character, including one that drops a row |
| Document.BackspaceOk | src/kernel/terminal.c:486-544 | the invariant survives a deletion of any count, and no row is dropped by it |
| Document.DeleteOk | src/kernel/terminal.c:546-570 | the same for deletion after the cursor |
| Document.MoveOk | src/kernel/terminal.c:572-615 | the same for moves and scrolls |
| Document.PutOk | src/kernel/terminal.c:191-250 | the invariant survives every character printed, newline included |
| Document.BeginOutputOk | src/kernel/terminal.c:356-370 | the invariant survives the start of output, which ends in column 0 with no input |
| Document.EndOutputOk | src/kernel/terminal.c:372-386 | after output the screen is editable again, its field in column 0 or right after the prompt |
| Editing.ApplyRefines | src/kernel/terminal.c:432-615 | one edit of a screen is that edit of the simple editor, keeps everything before the input, never reduces the dropped rows, and keeps or restores the picture |
| Editing.RunRefines | src/kernel/terminal.c:255-276 | for every run of edits of any counts: text and cursor are those of the simple editor, nothing before the input changes, a right picture stays right |
| Editing.RunCapped | src/kernel/terminal.c:435 | in every run the line has at most 127 characters |
| Editing.TypeThenErase | src/kernel/terminal.c:432-570 | a character typed anywhere below the cap is undone by a backspace, and by a left move and a delete |
| Editing.MovesCancel | src/kernel/terminal.c:546-610 | opposite moves cancel, and deleting ahead is moving right and deleting behind |
| Terminals.Terminal.constructor | src/kernel/terminal.c:286-306 | ten separate buffers in the colors of their attribute bytes, only the first set up, cleared and prompted |
| Terminals.Terminal.SwitchScreen | src/kernel/terminal.c:330-354 | shows the chosen screen, sets it up only the first time, leaves the others alone, and ignores an index out of range |
| Terminals.Terminal.GetInput | src/kernel/terminal.c:456-484 | the text of the current screen's editor, with every screen unchanged |
| Terminals.Terminal.PutcInput | src/kernel/terminal.c:432-454 | an edit of the current screen changes that screen's document and no other |
| Terminals.Terminal.DelInput | src/kernel/terminal.c:486-544 | the same for deletion before the cursor |
| Terminals.Terminal.DelInputForward | src/kernel/terminal.c:546-570 | the same for deletion after the cursor |
| Terminals.Terminal.Move | src/kernel/terminal.c:572-615 | the same for moves; like the deletions it leaves the display agreeing or not as it did where the input is empty and the view stays |
| Terminals.Terminal.PutsOutput | src/kernel/terminal.c:424-430 | the same for a string printed |
| Terminals.Terminal.BeginOutput | src/kernel/terminal.c:356-370 | the same for the start of output, with the exact condition for a display that was right to stay right |
| Terminals.Terminal.Clear | src/kernel/terminal.c:308-328 | the same for a clear |
| Terminals.Terminal.EndOutput | src/kernel/terminal.c:372-386 | the same for the end of output |
| Terminals.Terminal.PictureShown | src/kernel/terminal.c:330-354 | while the flag says so the display is a function of the current screen alone, so a screen shown again looks as it did |
| Terminals.Terminal.CursorPlaced | src/kernel/terminal.c:119-122 | while the flag says so, and it does between any two keys, the cursor registers hold the cell of the view that shows the page position of the cursor |
| Screens.SwitchAwayAndBack | src/kernel/terminal.c:330-354 | going to any screen and back restores cursor, scroll, input and picture; the other screen changes only by being set up, and a second round trip changes nothing |
| Screens.FreshOk | src/kernel/terminal.c:286-306 | a screen set up is empty, prompted, drawn and editable |
| Mem.Memmove | src/kernel/helper/mem.c:13-34 | for any overlap, the destination gets the old source and nothing else changes |
| Vga.Display.PutCursor | src/kernel/io/vga.c:51-59 | the two byte registers together hold the position of the cell |
| Vga.Display.SetCell | src/kernel/io/vga.c:61-67 | exactly one cell of the text memory changes |
| Rings.FullMeans127 | src/kernel/interrupt/handler/keyboard.c:289-307 | the ring refuses exactly when 127 scancodes wait and is empty exactly when head equals tail |
| Rings.StoreUnseen | src/kernel/interrupt/handler/keyboard.c:300 | storing into the slot at the head changes nothing that waits, in any state |
| Rings.PublishAppends | src/kernel/interrupt/handler/keyboard.c:301 | advancing the head appends the stored scancode |
| Rings.AdvanceTakes | src/kernel/interrupt/handler/keyboard.c:313-314 | advancing the tail removes the oldest scancode, the one just read |
| Rings.KeyBuffer.PushScancode | src/kernel/interrupt/handler/keyboard.c:289-302 | appends the scancode, or drops it exactly when 127 wait |
| Rings.KeyBuffer.TakeScancode | src/kernel/interrupt/handler/keyboard.c:309-317 | returns the oldest scancode and leaves the others in order |
| Machine.DoKeepsInv | src/kernel/boot/main.c:43-60 | every step of the main loop, of a handler, and of the hardware keeps the machine's invariant |
| Machine.EveryKeyOnceInOrder | src/kernel/interrupt/handler/keyboard.c:289-318 | for every interleaving: handled, in hand, waiting and on their way are together exactly the accepted scancodes in order, and one is dropped if and only if 127 wait |
| Readings.OffersAreRead | src/kernel/interrupt/handler/keyboard.c:283-302 | in every run, whenever no handler is under way, the scancodes offered are in order what the reads ask for: each byte read for the keyboard, and the keys of the packets in the stream of bytes read for the mouse |
| Machine.SlotsNeverClash | src/kernel/interrupt/handler/keyboard.c:289-318 | for every interleaving a store hits only a free slot, and the slot read holds the oldest waiting scancode until the tail moves |
| Machine.NeverSleepsOnInput | src/kernel/boot/main.c:44-60 | whenever the processor is halted the ring is empty, every accepted scancode was handled, and any pending interrupt can be taken |
| Machine.EnabledMeansIdle | src/kernel/interrupt/interrupt.c:32-51 | in every run, interrupts enabled means that no in-service bit is set and no handler is under way |
| Progress.AlwaysSettles | src/kernel/boot/main.c:44-60 | from every reachable state that is not dead: after the running handler, at most 516 uninterrupted steps of the main loop end asleep with every accepted scancode handled |
| Progress.SleepEnds | src/kernel/boot/main.c:44-60 | whatever steps and interrupts follow a sleep, the first scancode that arrives is accepted, and once the machine settles it was the next one handled |
| Machine.WithoutDelayAKeyIsLost | src/kernel/boot/main.c:52-58 | on a processor without the delay of STI there is a run that ends halted with a key in the ring and nothing to wake it |
| Interrupts.AcknowledgeEnds | src/kernel/interrupt/interrupt.c:32-51 | for each of the sixteen lines the acknowledgements clear exactly the in-service bits that its delivery set, on both controllers |
| Interrupts.OnlyIrqsAcknowledge | src/kernel/interrupt/interrupt.c:32-51 | dispatching a vector while an IRQ is in service leaves it in service if and only if the vector is no IRQ, so an exception inside a handler ends nothing and the handler still does |
| Interrupts.Dispatcher.Dispatch | src/kernel/interrupt/interrupt.c:32-51 | the registered handler is called, if there is one, before the acknowledgements: 0x20 to port 0xA0 for vectors 0x28 to 0x2F, then 0x20 to port 0x20 for 0x20 to 0x2F, none for others |
| Interrupts.Dispatcher.Register | src/kernel/interrupt/interrupt.c:27-30 | one entry of the table is replaced |
| Mice.MouseDevice.InterruptHandler | src/kernel/interrupt/handler/mouse.c:151-189 | one interrupt takes the automaton's step, with the packet index in range |
| Mice.StepReadsStream | src/kernel/interrupt/handler/mouse.c:151-189 | one interrupt consumes its byte, and the key it completes, off the front of the byte stream |
| Mice.RunReadsStream | src/kernel/interrupt/handler/mouse.c:151-189 | any interrupts push exactly the keys of the byte stream they carry, and what is held back is the incomplete packet at its end |
| Mice.StreamOfPackets | src/kernel/interrupt/handler/mouse.c:151-189 | a stream of packets behind bytes that cannot start one has exactly the keys of the packets and nothing left over |
| Mice.PacketsDecoded | src/kernel/interrupt/handler/mouse.c:151-189 | so the handler realigns on every packet boundary and pushes one key for each non-zero wheel byte, in order |
| Mice.WheelPacketsScroll | src/kernel/interrupt/handler/mouse.c:183-188 | with a wheel, exactly 0x48 for each fourth byte from 128 to 255 and 0x50 for each from 1 to 127, in packet order, for any events that carry such packets |
| Mice.PlainPacketsDoNot | src/kernel/interrupt/handler/mouse.c:151-189 | without a wheel no key is pushed |
| Mice.StatusBits | src/kernel/interrupt/handler/mouse.c:151-165 | an interrupt carries a byte exactly when bits 0 and 5 of the status are set, whatever the others are |
| Mice.StartBit | src/kernel/interrupt/handler/mouse.c:165-175 | a byte can start a packet exactly when its bit 3 is set |
| Keystrokes.WheelScrolls | src/kernel/interrupt/handler/mouse.c:183-188 | the wheel as the user sees it: a packet with a negative byte shows one row further up, a positive one one row further down, where there is one |
| Keyboard.DecodeSound | src/kernel/interrupt/handler/keyboard.c:164-276 | no key types a newline or a NUL, and a screen key names one of the ten screens and works only when no read is pending |
| Keyboard.SpecialKeysHaveNoChar | src/kernel/interrupt/handler/keyboard.c:40-137 | the special keys have no character in any layout and with any modifiers, so without Ctrl they always reach their function |
| Keystrokes.EditingKeys | src/kernel/interrupt/handler/keyboard.c:241-270 | by scancode, on the simple editor: 0x0E drops the character before the cursor, 0x53 the one after it, 0x4B and 0x4D move one character across the cursor, 0x48 and 0x50 change no editor |
| Keystrokes.KernelEditingKeys | src/kernel/interrupt/handler/keyboard.c:241-270 | the same of the kernel: the editor of the displayed screen is so edited, and every other editor, the keyboard and the shell stay |
| Keystrokes.ViewKeys | src/kernel/interrupt/handler/keyboard.c:258-263 | 0x48 shows one row further up unless the top is shown, 0x50 one further down unless the cursor is in view, and nothing else changes but the picture |
| Keystrokes.EnterKey | src/kernel/interrupt/handler/keyboard.c:246-248 | 0x1C adds exactly the line of the displayed editor to the log, as a command or as an answer, and empties that editor |
| Keystrokes.EnterRuns | src/kernel/interrupt/handler/keyboard.c:155-162 | 0x1C does to the kernel what the shell makes of the text of the input |
| Keystrokes.TypingKeys | src/kernel/interrupt/handler/keyboard.c:231-239 | a key with a character types it at the cursor, unless 127 are there, and a Backspace after it takes everything back |
| Keystrokes.CapsKey | src/kernel/interrupt/handler/keyboard.c:255-257 | 0x3A toggles Caps Lock and does nothing else |
| Keystrokes.ScreenKeys | src/kernel/interrupt/handler/keyboard.c:217-229 | with Ctrl the key of the digit row in place n shows screen n where it types a digit and no read is pending, and does nothing otherwise |
| Keystrokes.IdleKeys | src/kernel/interrupt/handler/keyboard.c:196-202 | no other release code, no key without character and function, and with Ctrl no key that types no digit changes anything |
| Keystrokes.BootState | src/kernel/terminal.c:286-306 | after boot: the first screen with a prompt and an empty line, the others not set up, Qwerty, nothing held, run, armed or stopped; 35 rows |
| Keyboard.CaseOfLetters | src/kernel/interrupt/handler/keyboard.c:204-215 | a letter key types its letter, a capital exactly when Caps Lock and Shift disagree, in both layouts |
| KeyRuns.ModifiersFollowKeys | src/kernel/interrupt/handler/keyboard.c:164-194 | after any run of the kernel that did not stop the machine, Ctrl and the Shift keys are held exactly if their last code was the press, and Caps Lock has toggled once for each press without Ctrl, whatever commands ran |
| KeyRuns.LayoutIsLatest | src/kernel/shell.c:124-132 | in every run the layout is the one named by the latest line that is "azerty" or "qwerty", or a "last" that repeated one of them, and Qwerty before any |
| Keyboard.DigitKeysShowScreens | src/kernel/interrupt/handler/keyboard.c:217-229 | with Ctrl and no read pending a key of the digit row shows its screen, 0 the last, exactly when it types a digit: in Qwerty when Caps Lock and Shift agree, in Azerty when they do not |
| Kernels.Lookup | src/kernel/shell.c:177-179 | the first command of exactly that name, and none exactly when no command has it |
| KernelRuns.RunCommandOk | src/kernel/shell.c:39-132 | every command, through "last" too, keeps the screen printable, touches only the current screen, and leaves the last command alone |
| KernelRuns.ShellKeeps | src/kernel/shell.c:165-204 | every line leaves the kernel at rest with an empty field on the current screen, or stopped |
| Pages.PutsPage | src/kernel/terminal.c:424-430 | printing leaves the page that its characters spell, a newline filling its row |
| Pages.AnswerPage | src/kernel/shell.c:167-175 | the line of a read leaves, after the row of the input, read: and the line in quotes, on rows of their own, and a prompt |
| Pages.UnknownPage | src/kernel/shell.c:198-203 | a line that is no name leaves itself with ": command not found", a full row, and a prompt |
| Pages.EmptyPage | src/kernel/shell.c:198-203 | an empty line leaves only a new prompt |
| Pages.FreeOutputPage | src/kernel/shell.c:153-157 | "help", "pmultiboot" and "pstack" leave what they print on rows of its own and a prompt |
| Pages.ClearPage | src/kernel/shell.c:48-51 | "clear" leaves a page that holds the prompt alone, nothing dropped and nothing scrolled |
| Pages.LayoutLine | src/kernel/shell.c:124-132 | "azerty" leaves the layout Azerty and "qwerty" Qwerty, with no other change of the keyboard and nothing printed |
| Pages.ReadLine | src/kernel/shell.c:81-87 | "read" arms a read and leaves no prompt |
| Pages.HaltLine | src/kernel/shell.c:89-110 | "halt" stops the machine, its message the last row of the page |
| Pages.RebootLine | src/kernel/shell.c:112-122 | "reboot" stops the machine and prints nothing |
| Pages.NoLastPage | src/kernel/shell.c:53-63 | "last" with nothing to repeat leaves its message and a prompt |
| Pages.LineEffects | src/kernel/shell.c:147-204 | for every line but "last": it stops the machine if and only if it is "halt" or "reboot", arms a read if and only if it is "read", and changes the layout only if it names one |
| Pages.AnswerEffects | src/kernel/shell.c:167-175 | the answer to a read runs no command, whatever it says |
| KernelRuns.SwitchKeeps | src/kernel/terminal.c:330-354 | a screen switch keeps every screen at rest, one shown for the first time included |
| KernelRuns.HandleKeeps | src/kernel/interrupt/handler/keyboard.c:164-276 | every handled scancode keeps the kernel's invariant |
| KernelRuns.EveryRunRests | src/kernel/terminal.c:278-284 | between any two keys of any run: "$ " is right before the input of every screen that was shown, except where a read waits, whose input starts in column 0; the current screen is in input mode; it is drawn, unless a read waits on an empty line on the last row of a view at the end of the buffer, some row having been dropped |
| ReadRuns.EnterArms | src/kernel/shell.c:165-195 | the key that arms a read, itself or through "last", leaves the display drawn if and only if no rows shift unseen, and if they do the display that was there is wrong for certain |
| ReadRuns.UnseenIsWrong | src/kernel/terminal.c:195-222 | a prompt with a command name after it never lets the visible rows repeat, so an unseen shift behind it always falsifies the display |
| ReadRuns.ReadPicture | src/kernel/terminal.c:432-615 | in every run, until the line of the read is entered, the current screen is drawn if and only if it was at the start or some key since typed a character or scrolled the view up |
| ReadRuns.StillBehind | src/kernel/terminal.c:486-615 | an edit that leaves the display behind has an empty input and an unmoved view, so it has no cell to change |
| ReadRuns.PictureCanBeWrong | src/kernel/terminal.c:356-386 | it happens from boot: on 35 rows, 34 times Enter, then "read" and Enter, rests on a wrong display |
| KernelRuns.EveryRunInWindow | src/kernel/terminal.c:119-168 | in every run the rows of the input are in the buffer and not above the view |
| KernelRuns.ScreensIndependent | src/kernel/terminal.c:330-354 | a key changes no screen but the current one and, by setting it up and drawing it, the one it shows |
| KernelRuns.SetUpOnce | src/kernel/terminal.c:286-306 | in every run a screen is set up if and only if it was displayed, and stays so: once each, on first display |
| KernelRuns.HandleWhileReading | src/kernel/shell.c:165-175 | while a read waits a key keeps the screen shown, runs nothing, and only an entered line ends it |
| KernelRuns.ReadTakesTheNextLine | src/kernel/shell.c:81-87 | in every run, from the arming of a read to the next line entered, the screen shown does not change, and that line is data |
| KernelRuns.LogGrows | src/kernel/shell.c:165-204 | lines given to the shell are never taken back: in every run the log only grows |
| KernelRuns.CommandRecords | src/kernel/shell.c:185-188 | after a line that does not stop the machine the last command is the one it named if that exists and is not "last", and unchanged otherwise |
| KernelRuns.LastIsLatest | src/kernel/shell.c:53-63 | in every run the last command is the latest one found in the log of lines that is not "last"; unknown commands and answers do not count |
| KernelRuns.LastRepeats | src/kernel/shell.c:53-63 | entering "last" does all that entering the name of the last command does: same output, screens, prompt or armed read, recorded command, and stopped or not; only the log of lines differs |
| EndToEnd.HandleSimulates | src/kernel/interrupt/handler/keyboard.c:155-276 | one scancode does to the ten screens and the shell what it does to ten simple editors and a shell |
| EndToEnd.KernelIsSimple | src/kernel/interrupt/handler/keyboard.c:155-276 | for every run of scancodes and any outputs the kernel stays the simple machine: each line given to the shell is the text of the current simple editor |
| EndToEnd.OutputsDoNotMatter | src/kernel/shell.c:165-204 | two runs of the same scancodes execute the same lines on the same screens, whatever their commands print |
| Whole.KeysReachTheEditors | src/kernel/boot/main.c:27-60 | for any interleaving, at the height of 35, the accepted keys reach the simple editors in order, all of them once the processor sleeps |
| Whole.EveryReadReachesTheEditors | src/kernel/boot/main.c:27-60 | once the processor sleeps, and if never 127 scancodes waited, the keys handled are all that the reads of the handlers asked for, in order |
| System.Console.constructor | src/kernel/boot/main.c:27-37 | the kernel after boot: first screen prompted, no modifier held, no read pending, empty ring |
| System.Console.RunCommand | src/kernel/shell.c:39-132 | each command function does to the terminal and the shell what the kernel's functions say |
| System.Console.Last | src/kernel/shell.c:53-63 | the stored command runs again, or a message says there is none |
| System.Console.FindCommand | src/kernel/shell.c:177-179 | comparing NUL-terminated names in turn finds the first command of that name |
| System.Console.ShellExecute | src/kernel/shell.c:165-204 | the three kinds of lines, output through printk included, and whether the line was taken |
| System.Console.AnswerRead | src/kernel/shell.c:167-175 | a line taken by a read is echoed, prompted and disarms the read |
| System.Console.RunFound | src/kernel/shell.c:179-195 | a found command runs between the two ends of output, becomes the last command unless it is "last", and gets no prompt while a read waits |
| System.Console.Reject | src/kernel/shell.c:198-203 | an unknown line is reported, an empty one only prompted |
| System.Console.ReadInput | src/kernel/interrupt/handler/keyboard.c:155-162 | the 256-byte buffer always suffices: the whole text of the current editor is copied |
| System.Console.Execute | src/kernel/interrupt/handler/keyboard.c:155-162 | Enter hands that text to the shell; when it arms a read, the cells of the display show the screen afterwards if and only if no rows shifted unseen |
| System.Console.HandleModifier | src/kernel/interrupt/handler/keyboard.c:164-194 | the modifier flags follow the press and release codes |
| System.Console.HandleScancode | src/kernel/interrupt/handler/keyboard.c:164-276 | on real screens a scancode has the effect of the kernel's function; while a read waits, a key after which the screen is not drawn leaves the cells of the display agreeing with it or not as before |
| System.Console.HandleInput | src/kernel/interrupt/handler/keyboard.c:309-318 | with any scancodes arriving before the first test and after each one taken: exactly those that waited or found room are handled, oldest first, each with the effect of the kernel; it ends on an empty ring unless a command stopped the machine; and until the line of a read is entered, a wrong display comes to show the screen, cell by cell, if and only if one of those keys typed a character or scrolled up |
| CStrings.Strlen | src/kernel/helper/string.c:3-11 | the number of characters before the first NUL |
| CStrings.Strcmp | src/kernel/helper/string.c:13-21 | the difference modulo 2^32 of the first characters that differ, or of the two ends; zero exactly when the two strings are equal up to their first NUL |
| Digits.NumeralRoundTrip | src/kernel/helper/printk.c:57-77 | a numeral in base 10 or 16 reads back as its number |
| Digits.NumeralLeads | src/kernel/helper/printk.c:57-77 | no numeral but that of zero starts with a zero |
| Digits.NumeralLength | src/kernel/helper/printk.c:32-55 | a numeral has at most k digits if and only if its number is below the k-th power of the base, so the digit buffers never overflow |
| Digits.SignedRoundTrip | src/kernel/helper/printk.c:79-129 | a signed numeral, the least 32-bit number's included, reads back as its number |
| Digits.Nbrlen | src/kernel/helper/printk.c:32-41 | the length function agrees with the digits emitted |
| Digits.Hexlen | src/kernel/helper/printk.c:43-55 | the same in base 16 |
| Digits.Putpadding | src/kernel/helper/printk.c:21-30 | exactly the missing characters, none when the number is long enough |
| Digits.Putunbr | src/kernel/helper/printk.c:57-77 | the decimal numeral and its length, for every 32-bit number |
| Digits.Putnbr | src/kernel/helper/printk.c:79-129 | the signed numeral and its length, for every 32-bit number including the least |
| Digits.Puthex | src/kernel/helper/printk.c:131-158 | the hexadecimal numeral and its length, for every 64-bit number |
| Printk.UnsignedReadsBack | src/kernel/helper/printk.c:240-260 | padding on the left never changes the number read back, and the output has length max(width, natural length) |
| Printk.SignedReadsBack | src/kernel/helper/printk.c:217-239 | the same for signed numbers: the sign precedes zero padding and follows blanks |
| Printk.PlainText | src/kernel/helper/printk.c:273-276 | text without a percent sign in front of any format is printed as it is |
| Directives.HexDirective | src/kernel/helper/printk.c:250-260 | %x prints a number that reads back in base 16, 64 bits wide after ll, as wide as the larger of width and numeral, padded with zeros exactly with the flag, and the rest of the format follows |
| Directives.UnsignedDirective | src/kernel/helper/printk.c:240-246 | the same for %u in base 10 |
| Directives.SignedDirective | src/kernel/helper/printk.c:217-239 | the same for %d and %i, for every 32-bit number: zeros after the sign, blanks before it |
| Directives.PointerDirective | src/kernel/helper/printk.c:261-263 | %p prints 0x and at least eight digits that read back in base 16 |
| Directives.TextDirectives | src/kernel/helper/printk.c:211-216 | %c prints its one character and %s its string, (null) without one |
| Directives.PlainDirectives | src/kernel/helper/printk.c:247-249 | %% prints one percent sign, and an unknown conversion is echoed whole with its flag, width and ll |
| Printk.ReadWidth | src/kernel/helper/printk.c:199-203 | a run of width digits is its decimal value modulo 2^32 |
| Printk.ReadDirective | src/kernel/helper/printk.c:190-209 | flag, width, length and conversion are those of the directive, wherever it stands |
| Printk.PutSigned | src/kernel/helper/printk.c:217-239 | the sign, the padding and the digits in the right order |
| Printk.Putptr | src/kernel/helper/printk.c:160-171 | 0x and at least eight digits |
| Printk.PutDirective | src/kernel/helper/printk.c:173-281 | one directive prints the first piece of the format and leaves the rest of the format with the rest of the arguments |
| Printk.Printk | src/kernel/helper/printk.c:173-281 | the output is the specification's pieces in order, unknown conversions echoed, and the result is the number of characters |
| Putnbr.PeelReversal | src/kernel/terminal.c:407-421 | peeling a reversed number gives the numeral back, trailing zeros included |
| Putnbr.PeelInjective | src/kernel/terminal.c:417-421 | different numbers peel to different characters, so a wrapped number cannot print right by accident |
| Putnbr.NineDigitsFit | src/kernel/terminal.c:407-415 | every number of at most nine digits meets the condition |
| Putnbr.TenDigitsMayNotFit | src/kernel/terminal.c:407-415 | 1000000009 does not |
| Putnbr.WrappedIsWrong | src/kernel/terminal.c:407-421 | for every positive number the characters are its numeral if and only if its reversal is below 2^31 |
| Putnbr.ReversalBound | src/kernel/terminal.c:410-415 | a reversal has no more digits than the number |
| Putnbr.ReversalGrows | src/kernel/terminal.c:410-415 | no intermediate value is above the end result, so none overflows when that fits |
| Putnbr.TurnAround | src/kernel/terminal.c:407-415 | the loop yields the reversal in 32 bits and the number of digits, and some multiplication or addition goes out of range if and only if the reversal is at least 2^31 |
| Putnbr.PutnbrOutput | src/kernel/terminal.c:393-422 | for every 32-bit number: the output is the signed numeral, as printk prints it, if and only if the number meets the condition, and no operation on the way, the negation included, overflows if and only if it does |

## Left out

- Boot entry, linker layout, descriptor tables and their packing, `remap_pic`, `mouse_init` and every port instruction but the acknowledgements: hardware effects with no state the model uses.
- Cursor visibility bits and the packing of a cell into 16 bits: a cell is a record of a character and two colors.
- Output of `help`, `pmultiboot` and `pstack`: an arbitrary sequence of characters, chosen anew for each handled key, so that the results hold whatever they print.
- `halt` and `reboot` are final: what the machine does after them is not modelled.
- `memmove` works on cells rather than bytes, and `memcpy`, `memset`, `memcmp` and `strncpy` are not part of this model; the command names are a constant table instead of copies.
- The entries of the keyboard tables and the attribute bytes of the screens are data, taken over as they are: which character a key has is not proved against anything else.
- Screen buffers are flat arrays of 80 cells a row; the linear index is what the source's two indices compute.
- The wrap of `printk`'s 64-bit count, and of the 32-bit counts of its helpers, beyond that many characters.
- Incomplete directives at the end of a format, and arguments of the wrong type, on which the source's behaviour is undefined. A format or a string argument is what comes before its NUL.
- Interrupt masks, spurious interrupts, CPU exceptions and non-maskable interrupts in the machine: only the keyboard and the mouse raise interrupts there. That exceptions are not acknowledged is proved of the acknowledgement itself.
- System.Console.HandleInput: arrivals between two accesses of one round of its loop are gathered at the next test of the ring, which sees the same scancodes; the accesses one by one are the steps of `Machine`.
- `keyboard_interrupt_handler` and the registration order in `kernel_main` are part of the machine's steps, not separate members.
- Printk.Printk: the characters go to a returned string, and `System.Console.Print` hands that string to the screen afterwards; the source prints each as it goes.
- Putnbr.PutnbrOutput: that the output is wrong when the reversed number does not fit is shown for wrapping arithmetic, one behaviour among those C allows.
- Rings.KeyBuffer.PushScancode: one whole push; its separate accesses, and interrupts between them, are the steps of `Machine`.
- Machine.EveryKeyOnceInOrder: says nothing of scancodes the controller itself loses before raising its interrupt.
