# FuseX: verified models

FuseX emulates the ZX Spectrum. Several of its parts speed up, encode or reorder something that
has a simple description. This project models those parts in Dafny and proves that each does
what the simple description says.

**The display** (`Bits`, `Video`, `Canvas`, `Beam`, `Lazy`, `Paper`, `Rectangles`, `Present`,
`Border`, `Frame`, `Ula`, `Spectrum`). The emulator does not draw the screen as the beam moves. It keeps
"maybe dirty" bits, and draws the cells behind the beam only when a write is about to change one
of them. `Lazy` states this as a transition relation and proves that over whole films of frames
it shows the picture of an eager display, which samples every cell at the moment the beam passes
it, with flashing, palette changes, screen switches and refreshes in between. `Paper` is the code
itself, on arrays and bit masks, each method proved to make the step that `Lazy` describes.
`Rectangles` and `Present` turn dirty bits into rectangles and copy these to the window; the
rectangles cover exactly the dirty cells. `Border` paints the border once a frame from a list of
timed colour changes, and only when the colour in use changes is anything recorded: the list kept
shows the same colours as one with every check of the colour in it. `Frame.DisplayFrame` is the
end of a frame. `Spectrum.Machine` puts all of them together for a run of any length: memory
writes, palette and mode changes, screen switches, refreshes and border outputs at any time, frame
after frame. Whenever a frame is due to be shown, the window shows the paper as the beam saw it,
and the border in the colours that were current as the beam drew it if and only if no border cell
needs more than two of them (`Spectrum.Machine.EndFrame`); and the frames so far are the film of an
eager display (`Spectrum.Machine.RunsEagerly`). `Ula` says what the screen should show once more and
from the other end: dot by dot, in plain numbers and without the functions that the code shares, from
what each byte of memory, each palette entry, the mode, the screen and the border port were last set
to before the T-state that counts. The window shows that, too.

**The command line** (`Getopt`, `CommandLine`). GNU getopt permutes argv in place while it is called again and
again. `Parse` reads a command line from left to right; the scanner is proved to leave argv
sorted into options and operands as `Parse` has it, and to have answered what `Parse` says, whether
operands may stand anywhere or, with POSIXLY_CORRECT, the first one ends the options. `CommandLine`
starts from what a program declares and its users write: whatever clusters of letters, long names and
operands make up the line, `Parse` says what was meant.

**Recordings** (`Autosave`, `Movie`, `Psg`, `TapeRecord`). The automatic snapshots of a recording
are thinned out by a loop that looks at ages only; which of them are left has a closed form. The
movie, sound chip and tape codes are each read back by an independent reader, the movie as a whole
stream of frames, rectangles and sound, pauses included.

**The tape traps** (`TapeTraps`). What SAVE writes, LOAD brings back and VERIFY accepts, and a
damaged byte is noticed.

**The event queue** (`Events`). A list of nodes, a cached head and a node kept for reuse, with
handlers that add and delete events while the queue is being worked off. The loop ends exactly when
some number of turns leaves nothing due, and who goes first is settled by time, type and age.

**Wire formats** (`Packets`, `Json`). GDB packets are framed and deframed; the streaming JSON
writer emits text from which the value is read back.

Classes keep the fields that the source updates in place. Their methods are proved against
functions and relations on values (`Abs`, `View`, `Regs` and the like give the value of an
object), and the lemmas are about those.

Where the source and its comments disagree, the source is followed. The comment in
display_border.c says that outputs to the border port are too far apart for two of them to fall
into one column. Nothing in that file enforces it: `Border.CrowdedBorderIsWrong` gives two changes
that are not shown as the beam sees them, `Border.SweepIsExactly` says exactly when the border is
right, and `Border.SpacedBorderIsExact` that the distance promised is enough.

The format described in movie.c has a third plane in every rectangle of a recording with screen type
R, and movie_add_area tests `fmf_screen` for it (line 290); but nothing ever sets that variable, so
two planes are all that is written. `Movie.HiresIsLost` shows a recording that the format does not
give back, and `Movie.Recorder.Played` says which ones it does.

## Model

| member | source | states |
|---|---|---|
| Video.PixelAddressBijection | display.c:72-76 | decoding a pixel address by its bit fields inverts the table of line starts, in both directions, for every cell |
| Video.PixelAddressDecodes | display_dirty.c:348-358 | every pixel address belongs to the cell that the bit fields say |
| Video.AttrAddress | display_dirty.c:369-374 | an attribute byte belongs to exactly one column of one character row |
| Video.RecordOfFreshDraw | display_render.c:226-298 | the word recorded for a draw decodes to the cell drawn, is never the "invalid" word, and keeps the pixel byte, the attribute, the ULA+ mark and the flash phase |
| Canvas.PutShows | display_render.c:246-257 | leaving out a draw because of the record is sound: the cell shows what was asked for, other cells are untouched, and a cell that changed is marked dirty |
| Canvas.GetPixelReadsPlotted | display.c:255-309 | display_getpixel reads back the plotted pixel of a standard, flashing or ULA+ cell when the cell was drawn in the present flash phase or cannot flash |
| Canvas.DirtyInit | display_dirty.c:417-422 | the mask of all columns has exactly the bits of the columns |
| Canvas.Buffers.DrawStandard | display_render.c:284-297 | compare, plot, record and mark: the new buffers are those of Put |
| Canvas.Buffers.DrawUlaplus | display_render.c:246-257 | the same with the colours word |
| Canvas.Buffers.Refresh | display.c:173-177 | all records become invalid and everything is dirty, without a change to what is plotted |
| Beam.BeamPosition | display_dirty.c:270-284 | the line is the one whose time span contains the moment and the column counts four T-states each from its start; -1 before the first line |
| Beam.BeamMonotone | display_dirty.c:286-315 | the clamped beam never goes back, line by line |
| Beam.PassedMonotone | display_dirty.c:286-315 | the number of cells the beam has passed never falls as time goes on |
| Beam.PassedMeansBehindBeam | display_dirty.c:322-323 | a cell has been passed exactly when it lies before the clamped beam position, line by line |
| Beam.PassedWhen | display_dirty.c:286-325 | a cell has been passed from the T-state on at which its line has lasted four T-states for each column up to it, four of border included, or at which the line is over |
| Beam.SetLineTimes | machine.c:611-622 | the line times are an arithmetic progression that puts the first paper pixel where the timing says |
| Lazy.CurrentShowsFresh | display_render.c:260-298 | a cell whose record matches memory shows, and reads back pixel by pixel as, a fresh draw |
| Lazy.WriteMisses | memory_pages.c:547-553 | a store that the dirty hook ignores, or that belongs to another cell, leaves everything a draw of this cell depends on alone |
| Lazy.UnmarkedKeepInputs | display_dirty.c:379-404 | every cell whose inputs an operation changes is marked, or lies behind the beam when the palette changes |
| Lazy.FlushShows | display_dirty.c:247-268 | after a flush every cell in its range is current and no other cell has changed |
| Lazy.StepInv | display_dirty.c:327-404 | a store, a palette or mode change, a screen switch or a refresh keeps the invariant between what is plotted, what is marked and what the beam has yet to decide |
| Lazy.RunInv | display_dirty.c:317-404 | so does any sequence of them in order of time |
| Lazy.RunVideo | display_dirty.c:317-404 | and the inputs are afterwards those that the operations leave, with no frame counted |
| Lazy.CleanMeansCurrent | display_dirty.c:327-341 | at any moment of a frame in which no palette change waits, a clean cell shows and reads back what a fresh draw would give |
| Lazy.LazyIsEager | display_dirty.c:424-437 | at the end of a frame every paper cell shows the inputs in force when the beam passed it, and the next frame starts with every clean cell current |
| Lazy.BetweenKeepsStart | display_render.c:381-393 | border drawing and the flash counter keep the start of a frame sound: the counter goes on by one, and the phase turns with it at 16 and at 32 |
| Lazy.WholeFrameIsEager | display.c:154-165 | one whole frame: the picture is the eager one, and the inputs of the next frame, with counter and flash phase, are a function of those of this one and of what happened in it |
| Lazy.FilmIsEager | display.c:154-165 | over a film of any number of frames each picture is that of an eager display that knows only the inputs of the first frame and what happened in each, and the inputs at the end are those it arrives at |
| Lazy.FlashPhase | display_render.c:381-393 | in closed form: after n frames from the start the counter is n modulo 32 and the flash phase is on if and only if n / 16 is odd |
| Paper.LineMaskBits | display_dirty.c:194-201 | the three shifts of copy_critical_region_line leave exactly the columns from x to end |
| Paper.RestStart | display_dirty.c:203-207 | masking takes those bits, and no others, out of the dirty word |
| Paper.Display.constructor | display.c:61-90 | a new display has nothing drawn and every cell to be drawn, as AllMarkedStarts asks for the start of a frame, at T-state 0 and frame 0, showing page 5, without ULA+ and with the flash phase off |
| Paper.Display.UpdateCachedBeam | display_dirty.c:286-315 | the cache holds what a fresh computation gives |
| Paper.Display.WriteIfDirty | display_render.c:260-298 | drawing a cell in standard or ULA+ mode does to the buffers what DrawPaper says |
| Paper.Display.WriteIfDirtyUlaplus | display_render.c:225-258 | the ULA+ half of it: table, ink and paper from the attribute and the palette |
| Paper.Display.CopyCriticalRegionLine | display_dirty.c:183-245 | the marked cells of one line between two columns are drawn and cleared, and nothing else happens |
| Paper.Display.CopyCriticalRegion | display_dirty.c:247-268 | the same from the critical position up to the beam over any number of lines |
| Paper.Display.UpdateCritical | display_dirty.c:317-325 | the display catches up with the beam exactly when the cell lies behind it |
| Paper.Display.DirtyChunk | display_dirty.c:327-341 | one cell is marked, after catching up if it lies between the critical position and the beam |
| Paper.Display.Dirty8 | display_dirty.c:343-361 | a pixel byte marks its cell |
| Paper.Display.Dirty64 | display_dirty.c:363-377 | an attribute byte marks its eight cells, catching up at most once |
| Paper.Display.MemoryDisplayDirty | memory_pages.c:536-554 | the hook acts exactly on a real change to the file shown |
| Paper.Display.WriteByteInternal | memory_pages.c:630-638 | the hook precedes the store, and together they are one step of the transition relation |
| Paper.Display.PaletteChanged | display_dirty.c:379-404 | what the beam has passed is drawn with the old palette and the rest is marked |
| Paper.Display.MarkFrom | display_dirty.c:395-399 | exactly the cells from the beam on are marked |
| Paper.Display.SetPaletteEntry | peripherals/ulaplus.c:177-183 | a write to a palette entry is one step of the transition relation |
| Paper.Display.SetUlaplusMode | peripherals/ulaplus.c:186-189 | so is a change of mode |
| Paper.Display.ShowScreen | machines/spec128.c:155-170 | so is showing another screen |
| Paper.Display.RefreshEverything | display.c:172-177 | so is a refresh of everything, which marks every cell in both sets of bits and voids every record |
| Paper.Display.FrameBegin | display_dirty.c:424-437 | the rest of the frame is drawn, and all cells are marked if the palette changed |
| Paper.Display.DirtyFlashing | display_render.c:356-372 | the cells that flash, and only these, are marked |
| Paper.Display.RenderFrame | display_render.c:381-393 | the frame is counted and the flash phase turns every sixteen frames |
| Rectangles.ApartSharesNoCell | rectangle.c:35-41 | rectangles that lie apart share no cell, and others do |
| Rectangles.KeptAndRetired | rectangle.c:141-189 | the rectangles of the active list are kept or retired, none twice and none lost |
| Rectangles.RectangleList.Add | rectangle.c:43-82 | the cells covered afterwards are those before and the new run, whether a rectangle grew or was added |
| Rectangles.RectangleList.CompareAndMerge | rectangle.c:89-139 | merging covers exactly the cells of both rectangles |
| Rectangles.RectangleList.EndLine | rectangle.c:141-189 | retiring, merging and compacting lose no cell and add none |
| Rectangles.RectangleList.Compress | rectangle.c:182-188 | compaction in place keeps the unfinished rectangles in order |
| Rectangles.MergeCovers | rectangle.c:104-133 | the bounding box of two rectangles that touch in one direction and agree in the other is their union |
| Present.SortedOut | rectangle.c:141-180 | sorting disjoint rectangles into the two lists keeps them disjoint |
| Present.WaitingKept | display.c:127-148 | cells that changed since the window was updated stay accounted for while others are drawn |
| Present.Screen.UpdateDirtyRects | display_dirty.c:131-179 | afterwards no bit is set and no rectangle is active, and the waiting rectangles cover exactly the cells they covered before and the dirty ones; without frame skip they are disjoint |
| Present.Screen.RedrawAll | display.c:170 | asking for the whole window accounts for every cell that differs |
| Present.Screen.UpdateUiScreen | display.c:112-152 | the window shows the picture when it is due, and keeps waiting rectangles otherwise |
| Border.PlaceIsWhenVisible | display_border.c:105-132 | a recorded change starts at the first pixel the beam draws once it is visible, clamping included |
| Border.RecordIsFaithful | display_border.c:104-132 | the recorded list gives every pixel the colour in force when the beam draws it |
| Border.RecordIsSorted | display_border.c:104-132 | changes made in order of time are recorded in order of position |
| Border.PackIsExact | display_border.c:210-281 | the cell made of eight pixels shows them if and only if there is no second transition among them |
| Border.PackRecord | display_border.c:173-203 | the recorded words of a border cell decode to the cell in every flash phase, also with ULA+ colours |
| Border.Segment | display_border.c:304-326 | between two changes of a sorted list the colour is that of the first |
| Border.BorderDisplay.PushChange | display_border.c:104-132 | the list grows by the change as placed |
| Border.FilterKept | display_border.c:134-144 | leaving out a check that finds the colour already in use keeps the colours shown at any time, and the last colour recorded stays the last one checked |
| Border.BorderDisplay.CheckChange | display_border.c:134-144 | every check is accounted for: the changes recorded show the same colours at any time as all checks made, of which the last has the colour kept for comparison |
| Border.BorderDisplay.ScanCell | display_border.c:230-243 | the search for a transition finds the first and the colour after it, in columns of 8 and of 16 pixels |
| Border.BorderDisplay.FlushLine | display_border.c:205-281 | one line, in columns of 8 or 16 pixels: border cells become those of the pixel buffer, paper cells stay |
| Border.BorderDisplay.SweepTo | display_border.c:304-326 | the cursor moves to the next change, every line before it is painted, and its own line is coloured up to there |
| Border.BorderDisplay.Paint | display_border.c:283-333 | the whole border is painted as the recorded list says, the same on a Timex with its two pixels for one; the paper is untouched, and a new list begins |
| Border.BorderDisplay.Frame | display_border.c:283-333 | the border painted shows the colours checked during the frame as the beam met them if and only if two colours a cell are enough; only border cells are touched, and the next frame starts with the colour last checked |
| Border.SweepIsExactly | display_border.c:205-333 | the border painted is the one the beam sees if and only if no cell needs more than one change of colour |
| Border.BorderIsExactly | display_border.c:134-333 | the same for all checks made, although only changes were recorded |
| Border.SweepReadsBack | display.c:282-308 | display_getpixel returns the colours the beam drew in every border cell with at most one change, in either flash phase |
| Border.FirstAt | display_border.c:233-268 | in a column of 16 pixels, two to a bit, a first transition always lies at the first pixel of a bit, so halving its place loses nothing |
| Border.SweepReadsBackWide | display.c:263-309 | its Timex branch returns, in both lines of a pixel, the colours the beam drew at four pixels a T-state |
| Border.ChangesShow | display_border.c:134-144 | the changes of colour among the checks show the same colours at any time as all of them |
| Border.SpacedChanges | display_border.c:237-238 | if these changes are at least four T-states apart, no border cell needs more than two colours |
| Border.SpacedBorderIsExact | display_border.c:237-238 | it is when the changes of colour among the checks made are at least four T-states apart |
| Border.CrowdedBorderIsWrong | display_border.c:235-243 | it is not for two changes one T-state apart in the first cell |
| Ula.AttributeShows | display_render.c:300-311 | ink and paper of an attribute are its lowest three bits and the next three, with the brightness, and change places exactly when it flashes and the phase is on |
| Ula.InputsSampled | display_dirty.c:286-404 | the inputs that decide a cell are, byte by byte and entry by entry, those last set before the T-state at which the beam leaves its column |
| Ula.AllSampled | memory_pages.c:630-638 | what all operations leave is what each byte, each palette entry, the mode and the screen were last set to |
| Ula.FreshDot | display_render.c:225-298 | dot by dot a cell has the colours that its byte and its attribute say, from the palette with ULA+ |
| Ula.PaperIsShown | display_render.c:225-311 | a window with every cell as the beam passed it shows each of the 256 by 192 dots of the paper in the colour that memory, palette and mode give at that moment |
| Ula.TellsOut | display_border.c:152-157 | an output to the port makes the border show that colour, or with ULA+ the palette entry eight above it, from two T-states later on, until something changes it |
| Ula.TellsOp | display_border.c:146-150 | so does a change of palette or mode with what it makes of the colour put out last, and nothing else does |
| Ula.BorderIsShown | display_border.c:69-157 | a window shows the border in the colours seen if and only if it shows each dot in what port, palette and mode give as the beam comes to it |
| Ula.TwoColoursAreEnough | display_border.c:235-243 | the condition for that in terms of the dots: each eight of them in a row are of one colour up to some place and of one colour behind it |
| Frame.NextGrows | display_dirty.c:327-404 | no step of the display changes a cell without marking it |
| Frame.FinishPaper | display_dirty.c:424-437 | the paper of the frame is finished, with all changed cells waiting for the window |
| Frame.FinishBorder | display_border.c:288-333 | the border is painted without disturbing the finished paper |
| Frame.UpdateWindow | display.c:159-160 | every cell that differs reaches the window when it is due, and no bit is left set |
| Frame.CountFrame | display_render.c:381-393 | counting the frame, and turning the flash phase, leaves the start of the next frame sound |
| Frame.DisplayFrame | display.c:154-165 | whatever happened in the frame, it is a whole frame of the deferred display; a window due for an update shows every paper cell as the beam saw it, and the border as the beam saw it if and only if no border cell needs more than two colours; the inputs pass on with the flash phase turned in its time, and all invariants hold for the next frame |
| Spectrum.PaperFollowsOn | display_dirty.c:327-404 | the paper that follows a frame goes on following it after one more operation |
| Spectrum.BorderFollowsOn | display_border.c:134-144 | so does the border display, if the step makes it check the colour or leaves the colour as it is |
| Spectrum.UncheckedKeeps | peripherals/ulaplus.c:177-192 | the operations that make no check leave the border colour as it is, ULA+ palette and mode included |
| Spectrum.SameAsSeen | display_border.c:134-144 | lists that show the same colours are seen alike in any window |
| Spectrum.SpacedIsSeen | display_border.c:237-238 | a window that shows a frame as seen shows its border right if the changes of colour in the frame are at least four T-states apart |
| Spectrum.AsUlaShows | display.c:154-165 | a window that shows a frame as seen shows it dot by dot as memory, palette, mode and port were set during the frame |
| Spectrum.ToldOperation | display_border.c:146-150 | an operation keeps the border that port, palette and mode give in step with the colours seen |
| Spectrum.ToldOutput | display_border.c:152-157 | and so does an output |
| Spectrum.Affect | display_dirty.c:327-404 | an operation on the paper is one step of the transition relation, keeps every invariant of paper, border and window, and draws no further than the beam |
| Spectrum.Machine.constructor | display.c:61-90 | a machine starts with an empty film and a black border, at T-state 0 and frame 0, showing page 5, without ULA+ and with the flash phase off |
| Spectrum.Machine.CurrentBorderColour | display_border.c:69-79 | the border colour is the one put out, or with ULA+ the palette entry eight above it |
| Spectrum.Machine.SetBorder | display_border.c:152-157 | the colour is kept and checked, and it is the one seen from now on, through the palette with ULA+ |
| Spectrum.Machine.Recheck | display_border.c:146-150 | the colour that is current now is checked, and the window is not disturbed |
| Spectrum.Machine.Run | display.c:167-180 | after a write, a palette or mode change, a screen switch or a refresh at any time the display still follows the frame: the operation is the last of its run, and the border shows the colour current after it |
| Spectrum.Machine.Output | peripherals/ula.c:203 | so it does after the output of a border colour, which is itself the colour then seen unless ULA+ is on |
| Spectrum.Machine.EndFrame | spectrum.c:164-170 | if the frame is due to be shown the window shows it as the beam saw it, cell by cell, and dot by dot from what memory, palette, mode and port were set to: the paper always, the border if and only if two colours a column are enough; the film is one frame longer, and the next frame starts with nothing done |
| Spectrum.Machine.Inputs | display.c:154-165 | at any time memory, palette, mode and screen hold what the frame set them to last |
| Spectrum.Machine.RunsEagerly | display.c:154-165 | over a run of any length every frame shows the picture of an eager display that knows only the first inputs and what happened since; the counter and the flash phase are those of the number of frames so far |
| Getopt.ExactNameWins | compat/getopt.c:660-673 | an exact long option wins over abbreviations wherever they stand in the table |
| Getopt.AbbreviationFound | compat/getopt.c:674-686 | without one the first option abbreviated is found, and it is ambiguous exactly when a later one that is abbreviated too differs |
| Getopt.ParseIsPermutation | compat/getopt.c:564-580 | options and operands together are the command line: nothing is lost or invented |
| Getopt.ParseKeepsOrder | compat/getopt.c:564-580 | both keep the order in which they were given |
| Getopt.ReadingUsesClaim | compat/getopt.c:1144-1190 | the element behind an option is used as its argument exactly when the option claims it |
| Getopt.RotateShortBottom | compat/getopt.c:346-362 | swapping a short first block with the end of the second leaves a smaller rotation with the same outcome |
| Getopt.RotateShortTop | compat/getopt.c:363-379 | so does swapping a short second block with the start of the first |
| Getopt.Scanner.RotateBlocks | compat/getopt.c:344-380 | the loop ends with the two blocks in each other's place and the rest untouched |
| Getopt.Scanner.Exchange | compat/getopt.c:308-386 | the bounds follow the operands to their new place |
| Getopt.Scanner.constructor | compat/getopt.c:388-441 | scanning starts with everything still to be read, permuting operands unless POSIXLY_CORRECT is set |
| Getopt.Scanner.FindLong | compat/getopt.c:660-686 | the search loop finds what LookupLong says |
| Getopt.Scanner.DecodeLong | compat/getopt.c:645-881 | a long option with or without argument, ambiguous, unknown or with an argument too many or too few |
| Getopt.Scanner.DecodeShort | compat/getopt.c:883-1193 | the next short option with its argument, if it takes one |
| Getopt.Scanner.SkipOperands | compat/getopt.c:564-580 | moving options to the front and skipping operands does not change what the scan is to arrive at |
| Getopt.Scanner.StopAtDashes | compat/getopt.c:582-598 | "--" goes with the options, and all that follows with the operands |
| Getopt.Scanner.StopAtOperand | compat/getopt.c:615-618 | when operands are not permuted the first of them ends the scan and begins the operands |
| Getopt.Scanner.Next | compat/getopt.c:526-1194 | every call but the last gets on and answers the next thing that the command line says; the last one leaves argv sorted and optind at the operands |
| Getopt.Scanner.ScanAll | settings.pl:1063-1166 | the caller's loop ends; the answers are those of reading the command line from left to right, and argv is the program name, the options with their arguments and any "--", and the operands, in their order |
| CommandLine.OptstringSpeaks | compat/getopt.c:1130-1190 | an optstring that lists letters, each with none, one or two colons, declares just these letters with no, a required or an optional argument; a first ":" tells a missing argument apart |
| CommandLine.NameFound | compat/getopt.c:660-686 | a name finds the entry with that name, or else the first that it abbreviates, unless a later one it abbreviates means something else |
| CommandLine.NameMeans | compat/getopt.c:660-686 | every name means one entry, none, or it cannot be told which |
| CommandLine.LettersRead | compat/getopt.c:883-1193 | a cluster of letters is read letter by letter, the last with an argument in the same element or in the next one |
| CommandLine.NameRead | compat/getopt.c:645-881 | a long option is read with no argument, one behind "=" or one in the next element, as its entry allows; one not wanted, a name that means nothing and one that means several are told |
| CommandLine.LineRead | compat/getopt.c:526-1194 | a command line of any such words is read as it was written: options with their arguments and operands apart, and all that there is to say, in order |
| CommandLine.EndRead | compat/getopt.c:582-618 | "--" ends the options, and so does the first operand when they are not permuted |
| CommandLine.MissingRead | compat/getopt.c:1144-1190 | a letter at the end of the line without the argument it requires is told |
| CommandLine.MissingNameRead | compat/getopt.c:763-796 | and so is a name |
| Autosave.KeptMeansKeep | rzx_recording.c:354-365 | which saves the closed form names: those younger than 750 frames, every third below 3000, every twelfth below 15000 and every sixtieth |
| Autosave.FateOfSave | rzx_recording.c:354-365 | a save that is there stays through the next pruning exactly when the closed form keeps it |
| Autosave.DeletedUnlessMultiple | rzx_recording.c:358-364 | at an age of 3, 12 or 60 intervals pruning deletes the saves whose number is not divisible |
| Autosave.PruneStep | rzx_recording.c:354-365 | pruning after one more save turns the closed form into the next |
| Autosave.PrunedKeepsTime | rzx_recording.c:318-368 | pruning deletes snapshots only: no frame is lost and the other snapshots stay where they were |
| Autosave.SaveAndPrune | rzx_recording.c:391-398 | the same for the whole list of blocks |
| Autosave.Recording.Prune | rzx_recording.c:318-368 | the loops over the block list delete exactly those blocks |
| Autosave.Recording.StoreFrame | rzx_recording.c:370-376 | a save falls due every 250 frames |
| Autosave.Recording.InterruptComplete | rzx_recording.c:378-401 | right after each save the automatic snapshots are exactly those of the closed form |
| Autosave.Recording.AutosaveReset | rzx_recording.c:403-435 | after a rollback the count is the number of frames since the last automatic snapshot, modulo the interval |
| Events.InsertedByTime | event.c:91-103 | an event inserted in its place keeps the list in order of time, even where deleted events have upset the order by type |
| Events.InsertedRanked | event.c:91-103 | and events for one time in the order of their types, the newest of a type first, whatever deleted events stand between them |
| Events.NoneLostOrRepeated | event.c:130-161 | every event ever added has been dispatched once or still waits, and never both |
| Events.TurnGetsOn | event.c:136-158 | with a handler that adds only later events, dispatching one event keeps the order, leaves nothing due earlier than it, and one event less due with it |
| Events.TurnsKept | event.c:136-158 | with handlers that add nothing earlier than their own event, any number of turns dispatches events once each and in the order of their times |
| Events.RenewedForever | event.c:136-158 | but if a handler adds its event again for the same time the loop has no end |
| Events.RenewedNeverEnds | event.c:136-158 | then no number of turns leaves nothing due |
| Events.LaterEnds | event.c:136-158 | with handlers that add only later events some number of turns does |
| Events.LaterAlwaysEnds | event.c:136-158 | they do so at any time of any run, which is what a frame that is played back needs to end |
| Events.NoneEarly | event.c:136-158 | whatever handlers do, each turn dispatches an event that was due |
| Events.DispatchedInRank | event.c:91-158 | of two events that wait the earlier is dispatched first, of two for one time the one of the smaller type, and of the same type the newer, whatever handlers add or delete meanwhile |
| Events.RemovedIsSilent | event.c:136-223 | when all events of a type are removed its handler is not called until one is added, and deleted events have no handler |
| Events.OrderHolds | event.c:136-158 | with handlers that add nothing earlier than their own event, dispatching keeps the order and the accounts of the whole run |
| Events.Queue.AddWithData | event.c:105-128 | the event takes its place by time and type, the cached head stays right, a node kept for reuse is used, and never the node of a running handler |
| Events.Queue.RemoveType | event.c:218-223 | all events of a type become deleted ones in their place, and no others |
| Events.Queue.RemoveTypeUserData | event.c:225-234 | the same for one value of the user data |
| Events.Queue.DoEvent | event.c:136-158 | the first event leaves the list before its handler is called, unless it has been deleted, and what the handler does to the queue is done |
| Events.Queue.Recycle | event.c:153-157 | the node is kept for reuse if none is kept yet |
| Events.Queue.Handle | event.c:151 | the actions of a handler are carried out one after the other on the queue as it then is |
| Events.Queue.DoEvents | event.c:130-161 | if some number of turns leaves nothing due the loop ends, having made the turns up to the first such moment and no others |
| Events.Queue.Frame | event.c:172-180 | every time goes back by the length of the frame, and every event keeps its time counted from the first frame if and only if none that waits is earlier than the end |
| Events.Queue.ForceEvents | event.c:182-197 | nothing before the end of the frame is left, and order, accounts and clock are as they must be for the frame to end |
| Events.Queue.EndFrame | spectrum.c:150-179 | dispatching before the frame ends makes event_frame safe, and the order holds across frames |
| Events.Queue.EndPlayedFrame | spectrum.c:99-105 | so it does when a frame that is played back ends with what there is to do before its length |
| Events.Queue.Schedule | event.c:105-128 | an event added by a device for now or later keeps the order of the whole run |
| Movie.RoundTrip | movie.c:218-263 | a reader of the documented code gets back the bytes and stops where their code ends, whatever follows |
| Movie.NotCompleteBefore | movie.c:218-263 | and not before its last byte |
| Movie.EncodedIsShort | movie.c:218-263 | the code is never more than half as long again |
| Movie.Recorder.PutByte | movie.c:232-250 | one byte through the run counter, with no more than two bytes written |
| Movie.Recorder.CompressArea | movie.c:218-263 | the 960-byte buffer is never overrun and flushing leaves no trace in what is written |
| Movie.Recorder.AddArea | movie.c:273-295 | a rectangle is recorded, header and two planes; one that ends a pause is recorded as a new frame with the whole screen instead |
| Movie.Recorder.StartFrame | movie.c:491-505 | a new frame is recorded, and after a pause the whole screen with it |
| Movie.RowsAt | movie.c:224-231 | the bytes are those of the words of the rectangle, line by line |
| Movie.PlanesOfRecord | movie.c:288-291 | the planes are the pixel byte of a record, its attribute and what is above it |
| Movie.AreaShows | movie.c:273-294 | a recorded rectangle has for each of its cells the pixel byte and the attribute in its record |
| Movie.SliceRoundTrip | movie.c:273-295 | a player that comes to a rectangle finds its position, its size and all its planes, and goes on behind it |
| Movie.StreamRoundTrip | movie.c:76-114 | a whole stream of frames, rectangles, sound chunks and ends is played back chunk by chunk if every rectangle has as many planes as the player expects |
| Movie.PlayedSuits | movie.c:81-89 | and what a player reads always has the planes it expects |
| Movie.HiresIsLost | movie.c:288-292 | so the document, which has a third plane with screen type R, does not give back the screen recorded with that type |
| Movie.Recorder.Played | movie.c:273-505 | at any time a player of two planes gets back from the stream all that was recorded, and one that goes by the document does if and only if nothing was recorded with screen type R |
| Movie.Recorder.constructor | movie.c:328-338 | a recording starts with the whole screen |
| Movie.Recorder.Pause | movie.c:411-425 | pausing and going on write nothing, and a pause is over only with the next frame |
| Movie.Recorder.Stop | movie.c:376-409 | stopping ends the stream, once |
| Movie.Recorder.AddSound | movie.c:456-473 | a sound chunk of up to 65536 frames is recorded |
| Movie.Recorder.AddSamples | movie.c:475-489 | chunks of at most 65536 frames hold all the samples, in order and none twice, mono or stereo, as PCM or through the A-Law table |
| Psg.Recorder.Start | psg.c:56-83 | a recording starts with no frame and no register written |
| Psg.Recorder.WriteFrameSeparator | psg.c:102-122 | the separators stand for exactly the frames counted, with counts that fit a byte |
| Psg.Recorder.PutRegisters | psg.c:140-145 | the registers of a frame are played back as they were written |
| Psg.Recorder.EndFrame | psg.c:124-157 | the log and the count of empty frames together stand for all frames so far and the one begun |
| Psg.Recorder.Stop | psg.c:85-100 | a player of the finished log, which takes 0xff for a frame and 0xfe for four times the count behind it, gets every frame with exactly the registers written in it, and begins one more |
| Psg.Recorder.WriteRegister | psg.c:159-166 | the first value of a register in a frame is kept, and the two port registers are not logged |
| Psg.BlankFrame | psg.c:148-153 | counting an empty frame is the same as logging it |
| TapeTraps.CarryMeansAllWell | tape_traps.c:359-441 | carry is set if and only if the flag is the one wanted, all bytes and the parity byte are there, the parity is right and, when verifying, memory agrees |
| TapeTraps.NothingLoaded | tape_traps.c:379-425 | without a flag byte, with none asked for or with another flag than the one wanted nothing is loaded or counted, and only in the second case can carry be set, when the flag is 0 |
| TapeTraps.LoadsWhatIsThere | tape_traps.c:327-441 | otherwise as many bytes are loaded as there are, up to those asked for, IX and DE count them, and a block too short fails |
| TapeTraps.VerifiesWhatIsThere | tape_traps.c:311-325 | verifying counts the bytes that memory holds, up to the first it does not, which is left in L |
| TapeTraps.SaveThenLoad | tape_traps.c:446-484 | a saved block is loaded with carry set, the length used up, the address advanced round the end of memory, parity 0 and every byte in RAM in its place, with nothing else changed |
| TapeTraps.LoadedStretch | tape_traps.c:327-336 | a stretch of RAM is filled with what was saved |
| TapeTraps.SaveThenVerify | tape_traps.c:311-325 | verifying succeeds if and only if memory still is what was saved |
| TapeTraps.DamageShows | tape_traps.c:338-357 | a block with one damaged byte, flag and parity included, is never loaded with carry set |
| TapeTraps.BlockParity | tape_traps.c:473-484 | the exclusive or of a saved block is 0 |
| TapeTraps.ParityChanges | tape_traps.c:316-332 | a change to a single byte changes the parity |
| TapeTraps.Machine.Save | tape_traps.c:472-489 | the block appended is flag, memory from IX on and parity |
| TapeTraps.Machine.VerifyBytes | tape_traps.c:311-325 | the loop stops at the first byte that memory does not hold |
| TapeTraps.Machine.CopyBytes | tape_traps.c:327-336 | the loop writes the bytes round the end of memory, into RAM only |
| TapeTraps.Machine.CheckParity | tape_traps.c:338-357 | parity byte read and compared, or missing |
| TapeTraps.Machine.LoadBlock | tape_traps.c:359-441 | all registers, the memory and the count of bytes used are those of Loaded, in every case |
| TapeRecord.RunReadBack | tape_record.c:112-131 | a run length of one or five bytes is read back |
| TapeRecord.RunsCoverAll | tape_record.c:133-156 | the runs are at least one sample long and add up to the samples |
| TapeRecord.SignalFromRuns | tape_record.c:133-156 | a signal of two levels can be rebuilt from its first level and its runs |
| TapeRecord.Recorder.RecordSample | tape_record.c:133-156 | the buffer holds the runs that are over, with five bytes to spare before each write |
| TapeRecord.Recorder.EnsureCapacity | tape_record.c:62-71 | the buffer grows without losing its contents |
| TapeRecord.Recorder.Stop | tape_record.c:158-177 | the data of the block gives the lengths of all the runs |
| TapeRecord.CountPulses | tape_block.c:112-134 | the pulses shown are the runs in the data, one cut short included |
| Packets.MessageArrives | debugger/packets.c:311-347 | a message within the capacity and without "#" is received as it was sent, on its last byte, and acknowledged |
| Packets.DamageIsNoticed | debugger/packets.c:221-251 | with one payload byte replaced it is refused, and nothing is delivered |
| Packets.NoDigitIsRefused | debugger/packets.c:207-224 | so is one without hexadecimal digits behind its "#", at once |
| Packets.TooLongIsRefused | debugger/packets.c:187-205 | so is one longer than the buffer, with its first byte too many |
| Packets.NoiseReceived | debugger/packets.c:161-181 | between messages nothing is taken, but interrupt bytes are counted |
| Packets.AllArrive | debugger/packets.c:159-254 | all messages of a conversation arrive once and in order, each acknowledged, with anything between them; the interrupts between them are counted |
| Packets.ReceivedInChunks | debugger/gdbserver.c:725-745 | how the bytes are cut into chunks makes no difference |
| Packets.TakenMeansFramed | debugger/packets.c:207-243 | whenever a message is taken, the last bytes were "$", its payload, "#" and its checksum |
| Packets.Deframer.FeedByte | debugger/packets.c:159-254 | one byte does to state, buffer, sum and replies what Step says |
| Packets.Deframer.Receive | debugger/gdbserver.c:725-745 | a chunk does what its bytes do one by one |
| Packets.SendMessage | debugger/packets.c:311-347 | the packet is the message framed |
| Packets.FramedText | debugger/packets.c:311-347 | in characters: "$", the message, "#", and the sum of its bytes modulo 256 in two lower-case hexadecimal digits |
| Json.TextRoundTrip | automation/json.c:24-44 | an escaped string is read back character for character (section 7 of RFC 8259) |
| Json.NumberRoundTrip | automation/json.c:105-111 | a number is read back when no digit follows, and has no leading zero |
| Json.ValueRoundTrip | automation/json.c:24-124 | the text of any value is read back as that value, whatever may follow it in a document |
| Json.AddedText | automation/json.c:46-56 | adding a value to a document is writing the comma and the name it needs, and then its own text |
| Json.EndedText | automation/json.c:88-96 | ending a container is writing its bracket |
| Json.DocumentRoundTrip | automation/json.c:120-124 | a finished document of one value means that value |
| Json.Writer.PutString | automation/json.c:24-44 | the loop writes the string escaped |
| Json.Writer.Member | automation/json.c:46-56 | a comma unless it is the first item, and a name in an object |
| Json.Writer.Begin | automation/json.c:58-68 | a container is begun inside the innermost one, or the error is set at the sixteenth |
| Json.Writer.End | automation/json.c:88-96 | the innermost container becomes an item of the one around it; without one the error is set |
| Json.Writer.String | automation/json.c:98-103 | a string is added |
| Json.Writer.Ulong | automation/json.c:105-111 | a number is added |
| Json.Writer.Truth | automation/json.c:113-118 | a truth value is added |
| Json.Writer.Error | automation/json.c:120-124 | without an error everything begun has been ended, and the text of a single value is read back as that value |

## Left out

- Timex and Pentagon screen modes and the colour of the hires border: only the Sinclair screen with and without ULA+ is modelled, except that `Border` also paints and reads back the 16-pixel columns of a Timex, whose border shows standard colours.
- Line times stay the same during a film of frames, and T-states do not go back within a frame, as they do when a snapshot is loaded.
- Beam.SetLineTimes: requires the top left pixel to come late enough for the border before it, as every machine timing does; the source would wrap an unsigned number.
- Frame.DisplayFrame: requires the beam not to have reached the paper when the frame ends, as the few T-states left over ensure; the flash phase turns then.
- Paper.Display.RenderFrame: has the same requirement, and so has `Paper.Display.DirtyFlashing`.
- Spectrum.Machine.EndFrame: requires the beam not to have reached the paper when the frame ends, as `Frame.DisplayFrame` does.
- Canvas.Buffers.Refresh: is the share of the buffers in display_refresh_all; `Paper.Display.RefreshEverything` calls it, and `Present.Screen.RedrawAll` is the first line.
- Paper.Display.SetPaletteEntry: leaves the recheck of the border to `Spectrum.Machine.Run`, and so does `Paper.Display.SetUlaplusMode`.
- Paper.Display.SetUlaplusMode: as the palette entry; the data port read back is not modelled.
- Paper.Display.ShowScreen: requires the display not to be ahead of the beam, which holds as long as T-states do not go back.
- Paper.Display.CopyCriticalRegion: has the same requirement, and so has `Paper.Display.UpdateCritical` for a cell that the beam has passed.
- Paper.Display.MemoryDisplayDirty: takes the page and the offset in it as found by the memory map; pages that are not RAM and the screen mask are not modelled.
- Present.Screen.UpdateUiScreen: leaves out the capture of a movie and the double size of Timex machines.
- Paper.Display.WriteByteInternal: leaves out writable ROMs, peripherals with memory of their own, and the masks of machines with a shadow in the screen page.
- Paper.Display.CopyCriticalRegionLine: goes through the word bit by bit as the portable branch of the source does, and not by counting trailing zeros; `Present.Screen.UpdateDirtyRects` does the same.
- The ULA+ peripheral is taken to be active, so that its mode bit alone decides; its state in snapshots is not modelled.
- uidisplay_area and uidisplay_plot8 are modelled as copying and setting cells; scaling, and the capture of a movie in update_ui_screen, are not.
- Growth of the rectangle and border lists: they are sequences.
- Border.SweepIsExactly: requires a line to take at least 160 T-states, as on every machine.
- Ula.PaperIsShown: requires a line to take at least 144 T-states.
- Getopt.Scanner.Next: models scans from optind 1; not RETURN_IN_ORDER, `-W`, error messages, storing through `flag`, a caller who moves optind back, or calls after the last.
- Getopt.Scanner.constructor: takes an option string that begins with neither "+" nor "-", as that of settings.pl does, so the ordering is PERMUTE, or REQUIRE_ORDER with POSIXLY_CORRECT in the environment.
- CommandLine.OptstringSpeaks: no letter is ":", ";", "+" or "-".
- CommandLine.LettersRead: where long options may have a single dash, a letter stands alone.
- Getopt.Scanner.DecodeLong: leaves out optopt and storing through `flag`.
- Getopt.Scanner.DecodeShort: leaves out the branch for `W;`.
- Autosave.Recording.StoreFrame: a pending snapshot is taken before the next frame is stored, as the interrupt callback does; competition mode and recording errors are not modelled.
- Autosave.Recording.InterruptComplete: speaks of recordings without rollback. The block list of libspectrum is a sequence.
- Events.Queue.DoEvents: handlers do not advance T-states or dispatch events themselves, and `tstates` stays below the "no events" value. The order in which g_slist_insert_sorted puts equal events is that of glib. Freed nodes are not tracked.
- Events.Queue.EndFrame: requires handlers to add nothing earlier than their own event, without which the order of dispatch cannot hold; so do `Events.Queue.ForceEvents` and `Events.Queue.EndPlayedFrame`.
- Movie.StreamRoundTrip: the stream before compression by zlib, behind the header of the file.
- Movie.Recorder.AddSamples: the A-Law table is a parameter, PCM is little-endian, and in stereo there is an even number of samples, as sound.c has it.
- Movie.Recorder.Stop: leaves out closing the file and the compressor.
- Psg.Recorder.Start: opening the file cannot fail. Write errors are left out here and in `Json` and `Movie`.
- TapeTraps.Machine.LoadBlock: of the flags only carry is modelled; finding the block, checking the ROM and what is left on the tape afterwards are not.
- TapeTraps.Machine.CheckParity: of the flags set by CP and INC only carry is told.
- TapeTraps.Machine.Save: traps are active and the tape takes the block.
- TapeRecord.Recorder.RecordSample: requires fewer than 2^31 equal samples in a row, with which the source's int counter overflows. The events that trigger it are not modelled here.
- TapeRecord.Recorder.Stop: leaves out the removal of the sample event, the scale of the block and its place on the tape.
- Packets.Deframer.Receive: sockets, locks and the processing of packets are left out.
- Json.Writer.Error: of the errors of the stream itself nothing is modelled, so only the writer's own flag and depth are told.
- Json.ValueRoundTrip: the reader expects no white space, which the writer never puts out, and takes `\u` escapes of ASCII characters only.
- Keyboard tables, sound, files, menus, the phantom typist, RZX playback and loader detection.
