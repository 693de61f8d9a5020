# The rope, the terminal reader, the list sort and the S-expression reader

A Dafny model of four components of the repository, with proofs of what they are for.

- **The rope** (`src/rope.c`): a text held in the nodes of an indexable skip list. Nodes are objects with their
  own byte buffers, links and widths, changed in place; a ghost sequence of the nodes, their heights and their
  texts says what the pointers mean. Heights drawn at random are left open, so every theorem holds for all of them.
- **The terminal reader** (`libtermkey/termkey.c`, `driver-csi.c`, `driver-ti.c`): a byte buffer with a start, a
  count and a high tide, two mutually recursive peeks, the parser of control sequences, the trie of terminfo
  sequences, UTF-8 both ways, and keys printed and parsed.
- **The list sort** (`sexp_parse/utlist.h`): bottom-up merge sort of linked elements, singly and doubly linked.
- **The S-expression program** (`sexp_parse/sexp_parse.c`): tokenizer, token list, reader, printer, and the main loop
  that reads at every newline.

Code that works in place is modelled by classes and methods over arrays and object fields. Each such method is
proved equal to a function on values (the *specification function*), and the theorems are lemmas about those
functions: `SkipLevels` for the skip list, `TermKeyPeek`, `TermKeyStream` and `TermKeyMemory` for the reader,
`Passes` for the sort, `Step`, `Form`, `Dump` and `Type` for the S-expressions.

## Modules

| file | contents |
|---|---|
| `Basics.dfy` | bytes, options, C strings |
| `RopeText.dfy` | code points by lead byte, decoding and encoding, the counting loops |
| `SkipLevels.dfy` | heights and widths of a skip list as sequences: where a link goes and how wide it is, before and after an edit |
| `RopeNode.dfy` | nodes, rows of linked nodes, and how links and iterators follow each edit |
| `Ropes.dfy` | the rope: search, insert, delete |
| `RopeUtf8.dfy` | which strings the rope takes: what UTF-8 prints |
| `RopeWalks.dfy`, `RopeRuns.dfy` | copying, writing out, checking; runs over a family of ropes |
| `TermKeyUtf8.dfy`, `TermKeyCsi.dfy`, `TermKeyKeys.dfy` | UTF-8, control sequences, keys and handlers |
| `TermKeyPeek.dfy`, `TermKeyBytes.dfy` | one peek; what the bytes alone tell about it beforehand |
| `TermKeyInput.dfy`, `TermKeySent.dfy`, `TermKeyReports.dfy` | what terminals send, and what comes of it: characters and control bytes; keys and strings; mouse, cursor and mode reports |
| `TermKeyStream.dfy` | streams of keys: chunk independence, conservation, forced reads, the caller's key structure |
| `TermKeyMemory.dfy`, `TermKeys.dfy` | the reader's buffer as a value, and the reader with its methods |
| `KeyTrie.dfy` | the trie: filling, compressing, walking, and the flat list it stands for |
| `KeyNames.dfy`, `KeyTexts.dfy` | keys as text: printing and parsing; what the texts are |
| `ListSort.dfy` | the merge sort |
| `SexpText.dfy`, `SexpTokens.dfy` | S-expressions as text; the tokenizer on whatever can be written |
| `SexpSession.dfy` | the program on what is typed into it |
| `SexpReader.dfy` | the program's tokens, buffer and cells in place |

## What was found

Some properties do not hold of the code as it stands; they are stated with their exact conditions.

- The keys a caller reads can depend on how the input is split. Position and mode reports, mouse reports of no
  known kind and unknown sequences never write the modifiers of the caller's key structure
  (`libtermkey/driver-csi.c:266-284`, `305-318`, `575-600`), while a getkey that answers `AGAIN` leaves those of the
  forced key there (`libtermkey/termkey.c:1030-1033`). Up to the modifiers that keys leave alone, the stream does
  not depend on the split (`TermKeyStream.RunIsDrain`). With one structure for all the keys it is the same if and
  only if the run is `Steady` (`ChunksMatter`): a condition on the bytes at each key and the modifiers held.
  `ReportWithAlt` is an input for which it is not: the report `ESC [ ? 1 ; 2 R`, split behind the `[`.
- A key found behind ESC bytes can make the buffer slide when only its own place, not the buffer's start, is in
  the upper half (`libtermkey/termkey.c:878-885`, `937-945`). After a key this is harmless. After `AGAIN` nothing
  is eaten, and the start is left below the buffer (an unsigned wrap-around). `TermKeyMemory.FetchedState` gives the
  condition, both ways and by the bytes alone (`Wraps`): without force, a CSI or SS3 that stops short, with the start
  in the lower half and the place of its introducer, so many ESC bytes further on, in the upper half.
  `TermKeys.WrapStart` gets there with a buffer of eight bytes.
- With an odd buffer size the slide leaves the last byte behind. `FetchedState` says exactly when pending bytes
  change: when the last byte of the buffer is still pending and differs from the one in the middle (`Loses`).
  `TermKeys.LoseLast` loses one from a buffer of seven bytes.
- A line beyond 0x3ff in a mouse or cursor report loses its eleventh bit: it is capped at 0x7ff, but packed with the
  mask 0x300 (`libtermkey/termkey-internal.h:72-92`). `TermKeyReports.PlaceReadsBack` has the exact condition: columns
  up to 0xfff and lines up to 0x3ff come back.
- A mode report comes back as it was only while its low byte is below 0x80 and the mode below 0x8000, where a plain
  `char` is signed (`libtermkey/driver-csi.c:305-340`; `TermKeyReports.ModeReportTold`). Mode 2004 comes back as -44
  (`BracketedPaste`).
- Deleting as many characters at the position of an insertion restores the text exactly when the insertion was
  not clamped to the end, or inserted nothing (`Ropes.UndoInsert`).
- The S-expression round trip is exact if and only if every value in the list is plain, literal and on one line
  (`SexpSession.RoundTripExact`, for all lists). Plain: no string holds a quote, a backslash or a zero, and every
  symbol is non-empty, holds no blank, closing parenthesis or zero, and begins with no quote, opening parenthesis or
  newline. Literal: no integer is negative and no symbol is all digits. On one line: no string or symbol holds a
  newline. The printer escapes nothing (`sexp_parse/sexp_parse.c:173-175`), while the tokenizer takes backslashes
  away (lines 259-268), so a string typed with an escaped quote is printed as something else.
- At a newline inside a token the program reads the tokens before it and drops them
  (`sexp_parse/sexp_parse.c:195-222`), so no list it ever shows holds a newline (`ShownOneLine`), and a plain list
  with one comes back as no list at all (`BrokenTrip`). `RoundTrip` says what comes back of a plain list on one line.
- The reader's cursor stays on the closing parenthesis of what it has read, so a second newline reads that, finds no
  value and goes through a null pointer (`SexpSession.SecondNewline`).
- Parentheses still open at the end of the tokens read as a list when there is one of them, and crash the reader when
  there are more (`SexpText.FormShape`).
- `compress_trie` never ends on a trie without entries: its search for the lowest byte finds none.
  `KeyTrie.HasChild` shows that this is the only such node.
- `parse_utf8` gives back every code point below 2^31 but surrogates, U+FFFE and U+FFFF, and exactly those
  (`TermKeyUtf8.ParseOfFill`).
- `termkey_strpkey` steps over the zero at the end of its string if and only if the string is modifiers with their
  separators and nothing else, or empty (`KeyNames.StepsOverEnd`).
- Loading the terminfo sequences aborts if and only if one goes on from another kept before it; what is kept are the
  non-empty sequences that begin none before them (`KeyTrie.Load`).
- A control sequence parameter left out at the very end is not told from none at all (`TermKeyCsi.RoundTrip`).

## Model

| member | source | states |
|---|---|---|
| RopeText.DecodeOfBytes | src/rope.c:188-209 | the byte string of a text cuts into exactly its code points again |
| RopeText.BytesOfDecode | src/rope.c:248-271 | a byte string that cuts into code points is the bytes of those |
| RopeText.CountBytes | src/rope.c:201-209 | the loop over lead bytes gives the byte length of the first characters of any text |
| RopeText.BytelenAndCheck | src/rope.c:248-271 | the length of a C string if and only if it decodes, otherwise -1 |
| RopeText.StrlenUtf8 | src/rope.c:236-244 | the number of code points of a string that decodes |
| RopeText.NextChunk | src/rope.c:539-557 | a chunk for a new node is non-empty, ends between code points, and is as long as fits |
| RopeText.ReadBack | src/rope.c:116-132 | a text written as a C string decodes to itself |
| RopeUtf8.CodepointIsSequence | src/rope.c:188-198 | a character of the rope's is a lead byte of the range for its length with continuation bytes behind it, and the other way round |
| RopeUtf8.FillDecodes | src/rope.c:188-271 | whatever UTF-8 prints for a code point but zero is one character |
| RopeUtf8.InsertsPrinted | src/rope.c:574-593 | any list of code points, printed, is accepted, and goes in as one character for each |
| RopeUtf8.CutAlike | libtermkey/termkey.c:675-748 | the rope cuts text where the terminal reader does, and for the same code points |
| SkipLevels.OverIsCover | src/rope.c:273-276 | a link passes over the end of a node exactly when it starts at the last node up to it that reaches the level |
| SkipLevels.DownIsCover | src/rope.c:279-332 | where the descent goes down stands the cover of the node a linear scan finds |
| SkipLevels.TargetAfterInsert | src/rope.c:423-438 | where each link goes once a node has been put in: cut at the new node's levels, unchanged elsewhere |
| SkipLevels.WidthAfterInsert | src/rope.c:423-449 | how wide each link is then |
| SkipLevels.WidthOfInserted | src/rope.c:426-428 | the new node's own link takes over what is left of the one it interrupts |
| SkipLevels.TextChange | src/rope.c:380-391 | a change of one text stretches the links over it and no other |
| RopeNode.LinksAfterInsert | src/rope.c:423-449 | the link updates of an insertion make the links of the row with the new node |
| RopeNode.IterAfterInsert | src/rope.c:433-448 | the iterator ends up at the new node's end on every level, for any height |
| RopeNode.LinksAfterRemove | src/rope.c:656-682 | the link updates of a removal make the links of the row without the node |
| RopeNode.TrimShrinks | src/rope.c:635-655 | trimming a node cuts its stretch out of the whole text |
| RopeNode.RemoveShrinks | src/rope.c:656-674 | taking a node out cuts its whole text out |
| RopeNode.Node.InsertBytes | src/rope.c:505-515 | making room and copying in splices the bytes |
| RopeNode.Node.RemoveBytes | src/rope.c:637-647 | moving up the trailing bytes cuts the stretch out |
| Ropes.Rope.constructor | src/rope.c:19-41 | a new rope is sound and empty |
| Ropes.Rope.Seek | src/rope.c:279-332 | the descent ends at the node a linear scan finds, with the exact offset, and the iterator holds the right node and distance at every level |
| Ropes.Rope.RandomHeight | src/rope.c:153-169 | any height from 1 to one less than the maximum |
| Ropes.Rope.RaiseHead | src/rope.c:412-421 | the head becomes taller than the new node, and links and iterator stay right |
| Ropes.Rope.LinkIn | src/rope.c:423-449 | both loops together cut or stretch every link at the iterator |
| Ropes.Rope.InsertAt | src/rope.c:398-454 | a new node with the text goes in after the iterator's node; the rope stays sound and the iterator moves behind it |
| Ropes.Rope.WriteInto | src/rope.c:502-525 | the text goes into one node at the offset |
| Ropes.Rope.ChooseNode | src/rope.c:476-500 | the text goes here if it fits, else at the front of the next node if the position is there and it fits, else nowhere; the position is the same |
| Ropes.Rope.SplitIn | src/rope.c:526-568 | the end of the node is cut off, the text goes into a chain of new nodes, the end into one more; the whole text is as it should be |
| Ropes.Rope.InsertAtIter | src/rope.c:458-572 | in all three cases the text goes in at the position; an invalid string changes nothing and is reported |
| Ropes.Rope.InsertUtf8 | src/rope.c:574-593 | for any position, clamped, any string and any heights: soundness kept, contents as with sequences, false and unchanged exactly when the string is invalid |
| Ropes.Rope.Trim | src/rope.c:635-655 | part of a node's text goes, and its own links and those over it shrink |
| Ropes.Rope.Unlink | src/rope.c:656-682 | a node goes with its text, and links into it and out of it are joined |
| Ropes.Rope.DeleteAtIter | src/rope.c:621-687 | one iterator, taken before anything changed, stays right over any number of nodes trimmed or unlinked |
| Ropes.Rope.Delete | src/rope.c:689-708 | for any position and length, clamped: soundness kept and contents as with sequences |
| Ropes.UndoInsert | src/rope.c:574-708 | deleting what was inserted restores the text, if and only if the insertion was not clamped or was empty |
| Ropes.DeleteTwice | src/rope.c:689-708 | two deletions at a position are one of the sum |
| Ropes.InsertedAt | src/rope.c:574-593 | character by character, what an insertion leaves |
| Ropes.DeletedAt | src/rope.c:689-708 | character by character, what a deletion leaves |
| RopeWalks.PointTo | src/rope.c:81-84 | the last copies on the new copy's levels are made to lead to it |
| RopeWalks.Copy | src/rope.c:56-88 | a sound rope of new nodes only, with the same heights and texts |
| RopeWalks.WriteCstr | src/rope.c:118-132 | the buffer holds the text and a zero, nothing behind it changes, and the string decodes to the rope's contents |
| RopeWalks.SaneLinks | src/rope.c:744-803 | whatever passes the walk of `_rope_check` is linked up on every level, and no node is as tall as the head |
| RopeWalks.ValidIsStrung | src/rope.c:744-803 | what the check takes for granted holds of every sound rope |
| RopeWalks.Check | src/rope.c:744-803 | on nodes strung in a row with texts that decode, `_rope_check` passes if and only if the rope is sound |
| RopeRuns.Run | src/rope.c:56-88 | any run of inserts, deletes and copies over a family of ropes keeps all of them sound, separate, and equal to the texts |
| RopeRuns.Step | src/rope.c:574-708 | one operation changes only the rope it is on, and new objects |
| TermKeyUtf8.FillUtf8 | libtermkey/termkey.c:649-672 | the bytes written backwards are the sequence of the code point, with a zero behind |
| TermKeyUtf8.ParseUtf8 | libtermkey/termkey.c:674-748 | the loop gives what the parsing function gives |
| TermKeyUtf8.ParseOfFill | libtermkey/termkey.c:639-748 | what was printed parses to its code point and length, whatever follows, for every code point below 2^31 that is allowed, and no other |
| TermKeyUtf8.FillOfParse | libtermkey/termkey.c:674-748 | whatever parses as anything but U+FFFD is exactly what would be printed for it |
| TermKeyUtf8.ParseMore | libtermkey/termkey.c:674-748 | more input never changes what has been parsed |
| TermKeyUtf8.FillIs | libtermkey/termkey.c:639-672 | the bytes of every code point, as the RFC's table has them |
| TermKeyUtf8.Broken | libtermkey/termkey.c:687-730 | a sequence that breaks off is U+FFFD up to the byte that does not belong to it |
| TermKeyCsi.FindFinal | libtermkey/driver-csi.c:346-352 | the first final byte is found |
| TermKeyCsi.ScanArgs | libtermkey/driver-csi.c:366-402 | the loop over the parameters fills the array as the scan says |
| TermKeyCsi.ParseCsi | libtermkey/driver-csi.c:344-408 | complete or not, parameters, command and length are those of the parsing function |
| TermKeyCsi.RoundTrip | libtermkey/driver-csi.c:344-408 | any encoded sequence parses to its parameters, command bytes and full length, whatever follows |
| TermKeyCsi.ParseMore | libtermkey/driver-csi.c:344-408 | more input never changes a complete sequence |
| TermKeyCsi.OverrunExact | libtermkey/driver-csi.c:372-401 | the parameters overrun exactly when there are more than 16 or one does not fit a long |
| TermKeyCsi.OthersIgnored | libtermkey/driver-csi.c:372-401 | bytes that mean nothing are passed over, wherever among the parameters |
| TermKeyCsi.NothingBehind | libtermkey/driver-csi.c:394-397 | nothing behind an intermediate byte matters |
| TermKeyPeek.PeekBounded | libtermkey/termkey.c:842-1002 | an answer uses at least one byte, and never more than there are |
| TermKeyPeek.ForcedProgress | libtermkey/termkey.c:842-1002 | forced, any pending bytes make a key that uses at least one of them |
| TermKeyPeek.PeekMore | libtermkey/termkey.c:842-1002 | a key given unforced is given just the same, with the same bytes used, on every extension of the input |
| TermKeyPeek.BehindEscapes | libtermkey/termkey.c:937-957 | a driver's key behind some ESC bytes uses more than those |
| TermKeyBytes.DriverDepth | libtermkey/driver-csi.c:702-740 | how many ESC bytes the driver passes before it answers, if it does, is told by the bytes alone, forced or not |
| TermKeyBytes.AgainUnfinished | libtermkey/driver-csi.c:538-616 | the driver calls for more where force would make it answer, if and only if a CSI has no final byte or nothing follows an SS3 |
| TermKeyBytes.UndefinedStrays | libtermkey/driver-csi.c:344-605 | the code leaves its tables on exactly those control sequences that overrun the parameters or whose handler strays |
| TermKeyBytes.ForcedAfterAgain | libtermkey/termkey.c:1022-1036 | after AGAIN force always gives a key; it leaves nothing to be skipped, saves no string, and sets the modifiers to what the bytes tell |
| TermKeyBytes.SilentKeys | libtermkey/driver-csi.c:266-325 | which keys leave the modifiers as they were, or only add Alt, by the bytes alone |
| TermKeyInput.Typed | libtermkey/termkey.c:788-812 | a character that is typed is found as itself, with its own bytes and no modifiers, whatever follows |
| TermKeyInput.HalfTyped | libtermkey/termkey.c:968-988 | with some of its bytes still to come there is AGAIN; forced, they are U+FFFD |
| TermKeyInput.ControlByte | libtermkey/termkey.c:750-815 | the key of every control byte that introduces nothing, for every flag |
| TermKeyInput.LoneEsc | libtermkey/termkey.c:924-936 | ESC by itself: AGAIN, and Escape when forced |
| TermKeyInput.AltTyped | libtermkey/termkey.c:937-957 | a character behind ESC comes with Alt |
| TermKeySent.CsiAt | libtermkey/driver-csi.c:538-605 | any complete control sequence comes to what its handler makes of its parameters, in both forms of the introducer, whatever follows |
| TermKeySent.LetterKey | libtermkey/driver-csi.c:435-445 | the eleven letters, by themselves or with modifiers m sent as m + 1 |
| TermKeySent.BackTab | libtermkey/driver-csi.c:447 | CSI Z is Tab with Shift in addition |
| TermKeySent.NumberKey | libtermkey/driver-csi.c:468-497 | the 28 function keys by number, with any modifiers |
| TermKeySent.OtherNumber | libtermkey/driver-csi.c:100-119 | every other number is an unknown sequence |
| TermKeySent.CharacterKey | libtermkey/driver-csi.c:139-158 | CSI u gives the character with the modifiers sent |
| TermKeySent.ModifiedCharacter | libtermkey/driver-csi.c:83-119 | and so does CSI 27 ; m ; c ~ |
| TermKeySent.ControlKey | libtermkey/driver-csi.c:139-158 | a control byte sent so has Ctrl in addition |
| TermKeySent.UnknownSequence | libtermkey/driver-csi.c:572-601 | a sequence without a handler is unknown, and leaves its parameters |
| TermKeySent.BareReport | libtermkey/driver-csi.c:266-284 | CSI ? R is F3 without parameters, and unknown with any number of them but two |
| TermKeySent.AltSent | libtermkey/termkey.c:937-957 | a key of the driver's behind one more ESC has Alt, whatever the structure held |
| TermKeySent.HalfCsi | libtermkey/driver-csi.c:547-555 | a CSI without a final byte: AGAIN; forced, Alt-[ |
| TermKeySent.HalfSs3 | libtermkey/driver-csi.c:609-617 | SS3 by itself: AGAIN; forced, Alt-O |
| TermKeySent.HalfString | libtermkey/driver-csi.c:656-673 | a string without an end: AGAIN; forced, the key its introducer is |
| TermKeySent.LetterSs3 | libtermkey/driver-csi.c:435-445 | the same letters behind SS3 |
| TermKeySent.KeypadKey | libtermkey/driver-csi.c:449-466 | the keypad, as symbols or converted |
| TermKeySent.UnknownSs3 | libtermkey/driver-csi.c:619-649 | any other byte behind SS3 leaves the introducer a plain key |
| TermKeySent.ControlString | libtermkey/driver-csi.c:656-700 | a string runs to its first terminator of either form, is kept up to its first zero, and is a DCS or an OSC by its introducer |
| TermKeyReports.PlaceReadsBack | libtermkey/termkey-internal.h:72-92 | which columns and lines come back from a packed place |
| TermKeyReports.MouseReport | libtermkey/driver-csi.c:165-258 | the program is told the event, button, modifiers and place that an SGR or rxvt report has |
| TermKeyReports.X10Report | libtermkey/termkey.c:1004-1020 | and an X10 report |
| TermKeyReports.PositionReport | libtermkey/driver-csi.c:266-299 | the line and column of a cursor report |
| TermKeyReports.ModeReportTold | libtermkey/driver-csi.c:305-340 | exactly which modes and values come back, with signed and unsigned char |
| TermKeyReports.BracketedPaste | libtermkey/driver-csi.c:305-340 | mode 2004 does not |
| TermKeyStream.RunIsDrain | libtermkey/termkey.c:1022-1171 | chunk independence: any run of pushes and unforced getkeys finds the keys of the whole input in one piece, up to the modifiers that keys leave alone |
| TermKeyStream.SteadyKeys | libtermkey/termkey.c:1022-1047 | with one key structure throughout, a run gives what it finds with nothing left over from forced answers, if and only if it is steady |
| TermKeyStream.ChunksMatter | libtermkey/termkey.c:1022-1171 | the keys read into one structure are the first of those in the whole input if and only if the run is steady |
| TermKeyStream.ReportWithAlt | libtermkey/driver-csi.c:266-284 | a cursor report read whole has no modifiers, and split behind its introducer has Alt |
| TermKeyStream.RunConserved | libtermkey/termkey.c:627-637 | in any run, forced reads included, bytes used and bytes pending are, in order, the bytes there were and those pushed |
| TermKeyStream.ForcedDrains | libtermkey/termkey.c:1038-1047 | forced reads use up the whole input piece by piece, in at most as many reads as there are bytes |
| TermKeyStream.Handshake | libtermkey/driver-csi.c:410-420 | after an unknown sequence, found by force or not, the parameters can still be parsed, unchanged by further pushes, and the next read goes on behind the final byte |
| TermKeyStream.PeekLeaves | libtermkey/driver-csi.c:578-601 | an unknown sequence leaves its parameters and final byte to be skipped, and no other key leaves anything |
| TermKeyMemory.SlidingKeeps | libtermkey/termkey.c:878-885 | the slide keeps the pending bytes, if and only if the last byte of an odd buffer is not lost |
| TermKeyMemory.FetchedState | libtermkey/termkey.c:842-1047 | a getkey, forced or not, leaves a start inside the buffer if and only if it does not wrap; and then what is pending is what the stream asks for if and only if no byte is left behind |
| TermKeyMemory.PushedState | libtermkey/termkey.c:1150-1171 | a push moves the pending bytes to the front and adds the first of the new ones: all, or as many as fill the buffer |
| TermKeyMemory.AcceptedFits | libtermkey/termkey.c:1150-1171 | in any run every push is cut to its first bytes, and short only where the buffer is full then |
| TermKeys.TermKey.EatBytes | libtermkey/termkey.c:627-637 | the start moves up, or the buffer is reset when all is eaten |
| TermKeys.TermKey.PeekCsi | libtermkey/driver-csi.c:538-605 | result, bytes used and high tide as the specification says; the offset shifted for an X10 report is restored |
| TermKeys.TermKey.PeekSs3 | libtermkey/driver-csi.c:607-654 | result and bytes used as the specification says |
| TermKeys.TermKey.PeekString | libtermkey/driver-csi.c:656-700 | the string up to its terminator is saved under the next number |
| TermKeys.TermKey.Drive | libtermkey/driver-csi.c:702-740 | the introducers in both their forms lead to their parsers |
| TermKeys.TermKey.Slide | libtermkey/termkey.c:878-885 | the upper half moves down when the start is in it |
| TermKeys.TermKey.PeekKey | libtermkey/termkey.c:842-915 | the answer of the specification, and the exact state left behind |
| TermKeys.TermKey.PeekSimple | libtermkey/termkey.c:917-1002 | the same for the plain rules, with the shift for an ESC undone |
| TermKeys.TermKey.GetKey | libtermkey/termkey.c:1022-1036 | the exact buffer left behind; what the key structure holds then, of the key or of the forced one, given what it held before; and the two slide cases, both ways |
| TermKeys.TermKey.GetKeyForce | libtermkey/termkey.c:1038-1047 | the same, forced; with bytes pending it gives a key and makes progress |
| TermKeys.TermKey.PushBytes | libtermkey/termkey.c:1150-1171 | the first bytes go in behind the pending ones, either all of them or until the buffer is full; -1 when it was |
| TermKeys.TermKey.InterpretCsi | libtermkey/driver-csi.c:410-420 | the parameters and command of the sequence left to be skipped |
| TermKeys.TermKey.InterpretString | libtermkey/driver-csi.c:751-773 | only the last control string can be had |
| TermKeys.TermKey.ReadString | libtermkey/driver-csi.c:656-773 | a pending control string is read, and its text had, up to its first zero |
| TermKeys.TermKey.ReadUnknown | libtermkey/driver-csi.c:410-420 | getkey, push, interpret, getkey: the parameters and command of the unknown sequence, and an answer to the bytes behind its final byte |
| TermKeys.TermKey.Run | libtermkey/termkey.c:1022-1171 | a run of pushes, cut short or not, and getkeys, forced or not, into one key structure gives the keys and leaves the state of the same run on an endless stream with the bytes that were accepted, which are the first of each push, cut short only by a full buffer; none of those is lost; and when the keys are the first of the whole input |
| TermKeys.StartWraps | libtermkey/termkey.c:878-885 | a state in which a getkey wraps the start |
| TermKeys.WrapStart | libtermkey/termkey.c:842-1036 | a reader of eight bytes gets into that state and is no longer valid |
| TermKeys.UpLoses | libtermkey/termkey.c:878-885 | a state in which a getkey leaves the last byte behind |
| TermKeys.LoseLast | libtermkey/termkey.c:842-1036 | a reader of seven bytes gets into that state and reads another byte in its place |
| KeyTrie.TrieNode.Extent | libtermkey/driver-ti.c:85-99 | an array node over an extent, with nothing below it |
| KeyTrie.PeekKey | libtermkey/driver-ti.c:406-453 | the walk finds the entry that begins the input; AGAIN exactly for an unforced proper beginning of an entry; otherwise nothing |
| KeyTrie.TermKeyTI.InsertSeq | libtermkey/driver-ti.c:555-606 | for every sequence: it aborts exactly when it extends an entry, is dropped when it begins one, and otherwise enters it |
| KeyTrie.HasChild | libtermkey/driver-ti.c:153-157 | every array node has a node below it, but for the root of an empty trie |
| KeyTrie.RealBounds | libtermkey/driver-ti.c:152-157 | the lowest and highest byte with a node below |
| KeyTrie.CompressTrie | libtermkey/driver-ti.c:140-170 | the compressed nodes lead along the same paths to the same leaves, in new arrays |
| KeyTrie.StillTrie | libtermkey/driver-ti.c:140-170 | so the trie stands for the same entries |
| KeyTrie.TermKeyTI.Compress | libtermkey/driver-ti.c:140-170 | the driver's entries are unchanged |
| KeyTrie.FlatAnswers | libtermkey/driver-ti.c:24-28 | an answer by the entries is the answer of a linear search through the list |
| KeyTrie.KeptUnambiguous | libtermkey/driver-ti.c:555-606 | until two sequences clash, those kept begin none another |
| KeyTrie.Load | libtermkey/driver-ti.c:172-240 | for any list with a non-empty sequence: when loading aborts, and otherwise the trie stands for the sequences kept |
| KeyTrie.FlatFinds | libtermkey/driver-ti.c:406-453 | the search gives the key loaded for the sequence, modifiers and all, and its length; or reads the three bytes of a mouse report |
| KeyTrie.LoadAndPeek | libtermkey/driver-ti.c:172-453 | loading any list and peeking at a buffer comes to a linear search of the sequences kept, of the whole list when it is unambiguous: the loaded key, the mouse report, AGAIN or nothing |
| KeyNames.PrintParses | libtermkey/termkey.c:1291-1491 | a printed key parses back with nothing left over, for every canonical key with a text, all modifiers, all these formats |
| KeyNames.StepsOverEnd | libtermkey/termkey.c:1424-1491 | exactly when the parser steps over the end of its string |
| KeyNames.TableUsable | libtermkey/termkey.c:47-112 | no name of the built-in table begins another, is one character or holds a separator |
| KeyNames.PrintKey | libtermkey/termkey.c:1291-1422 | the buffer holds the key's text and a zero |
| KeyNames.LookupName | libtermkey/termkey.c:1208-1230 | the linear search finds the first name the text begins with |
| KeyNames.SkipMods | libtermkey/termkey.c:1449-1464 | the loop over the modifiers stops where the specification says |
| KeyNames.ParseKey | libtermkey/termkey.c:1424-1491 | the parser as it works gives what the parsing function gives |
| KeyNames.PrintAndParse | libtermkey/termkey.c:1291-1491 | a key with a text of its own, printed into a buffer and parsed from it with the built-in names, is that key |
| KeyTexts.ModifierTexts | libtermkey/termkey.c:1277-1289 | the names of the modifiers are those of the eight rows |
| KeyTexts.PrefixText | libtermkey/termkey.c:1332-1348 | Alt, Ctrl and Shift stand in this order, each with its separator |
| KeyTexts.NamesAre | libtermkey/termkey.c:52-70 | the names of the first symbols |
| KeyTexts.TerminfoNamesAre | libtermkey/termkey.c:71-92 | those from terminfo |
| KeyTexts.KeypadDigitsAre | libtermkey/termkey.c:93-102 | those of the keypad's digits |
| KeyTexts.KeypadNamesAre | libtermkey/termkey.c:103-110 | and of its other keys |
| KeyTexts.NoOtherNames | libtermkey/termkey.c:1173-1195 | NONE gets a number of its own, and nothing else has a name |
| KeyTexts.FunctionText | libtermkey/termkey.c:1365-1368 | F and the number, without leading zeros |
| KeyTexts.CaretText | libtermkey/termkey.c:1305-1323 | a control byte without a name is a key that prints as ^ and the character 0x40 above it |
| KeyTexts.FunctionNumber | libtermkey/termkey.c:1474-1477 | sscanf takes blanks, a sign and leading zeros, and stops where the digits do |
| KeyTexts.LookupFirst | libtermkey/termkey.c:1208-1230 | the search gives the first symbol whose name the text begins with |
| KeyTexts.ModsTaken | libtermkey/termkey.c:1448-1464 | all the modifiers in front are taken, in any order, and nothing else |
| KeyTexts.NameThenRest | libtermkey/termkey.c:1470-1473 | a name is taken whatever follows, which is left |
| KeyTexts.FunctionThenRest | libtermkey/termkey.c:1474-1477 | so is a function key |
| KeyTexts.CharacterThenRest | libtermkey/termkey.c:1478-1483 | and a character that neither of them begins with |
| KeyTexts.CaretTaken | libtermkey/termkey.c:1432-1446 | behind a caret the characters from @ to _ are taken and no others |
| KeyTexts.CanonicalForms | libtermkey/termkey.c:817-840 | only a space and DEL have two forms |
| ListSort.MergeSorted | sexp_parse/utlist.h:135-150 | the merge of sorted runs is sorted |
| ListSort.MergeTies | sexp_parse/utlist.h:142-147 | and keeps elements that compare equal in order |
| ListSort.PassRuns | sexp_parse/utlist.h:121-156 | a pass doubles the length of the sorted runs |
| ListSort.PassesSort | sexp_parse/utlist.h:111-169 | the passes end with a sorted, stable permutation |
| ListSort.RunAhead | sexp_parse/utlist.h:126-133 | q stands one run ahead of p |
| ListSort.MergeRuns | sexp_parse/utlist.h:134-155 | two runs are merged onto the end of the list in place |
| ListSort.PassOver | sexp_parse/utlist.h:118-163 | the relinked elements are the pass of the sequence, doubly linked with the head's prev at the tail; at most one merge exactly when that was all |
| ListSort.Sort | sexp_parse/utlist.h:111-233 | both sorts end with the same elements, sorted, stable and correctly linked |
| SexpText.AtoiOfDigits | sexp_parse/sexp_parse.c:79-90 | the number read from printed digits is the number |
| SexpText.RunElem | sexp_parse/sexp_parse.c:232-299 | the tokenizer on any printed value and the character behind it |
| SexpText.ReadElem | sexp_parse/sexp_parse.c:122-168 | the reader on the tokens of any value takes exactly those |
| SexpText.FormShape | sexp_parse/sexp_parse.c:122-168 | a form is read whole if and only if an atom stands there or a parenthesis that closes, and up to there; one list left open is read to the end, more than one crash |
| SexpText.OpenList | sexp_parse/sexp_parse.c:122-135 | a list left open is read as if it were closed |
| SexpTokens.RunQuoted | sexp_parse/sexp_parse.c:246-279 | between quotes it is the string itself, with backslashes before quotes and backslashes and wherever else |
| SexpTokens.WordToken | sexp_parse/sexp_parse.c:71-90 | digits are the integer, leading zeros or not; anything else is a symbol |
| SexpTokens.NoLeadingZero | sexp_parse/sexp_parse.c:176-178 | only zero is printed with a zero in front |
| SexpTokens.RunPieces | sexp_parse/sexp_parse.c:232-299 | the tokens of any text of parentheses, blanks, words and strings |
| SexpTokens.Printed | sexp_parse/sexp_parse.c:170-193 | how lists, strings and numbers are printed |
| SexpSession.RoundTrip | sexp_parse/sexp_parse.c:195-324 | what comes back of any plain list printed on one line and typed in, and what tokens are left |
| SexpSession.SecondNewline | sexp_parse/sexp_parse.c:137-204 | another newline crashes the program |
| SexpSession.AtomStays | sexp_parse/sexp_parse.c:137-204 | an atom in front is shown at every newline and stays |
| SexpSession.BrokenTrip | sexp_parse/sexp_parse.c:195-324 | a plain list printed with a newline in it never comes back as a list |
| SexpSession.ShownOneLine | sexp_parse/sexp_parse.c:195-324 | whatever is typed, a list that is shown holds no newline |
| SexpSession.ElemComes | sexp_parse/sexp_parse.c:170-299 | an element that is read back as itself was plain and is literal, whatever follows its printed form |
| SexpSession.HalfTheSlashes | sexp_parse/sexp_parse.c:259-268 | of the backslashes a string begins with the tokenizer keeps every other one |
| SexpSession.RoundTripExact | sexp_parse/sexp_parse.c:195-324 | for every list: the last value shown is the list itself, if and only if it is plain, literal and on one line |
| SexpReader.Append | sexp_parse/utlist.h:341-352 | the walk to the end puts the new token last |
| SexpReader.CheckInt | sexp_parse/sexp_parse.c:71-77 | nothing but digits |
| SexpReader.Tokenizer.EmitToken | sexp_parse/sexp_parse.c:79-90 | the token goes to the end of the list, as an integer when it is a symbol of digits |
| SexpReader.PutChar | sexp_parse/sexp_parse.c:266-267 | the character goes behind the string, which stays ended by a zero |
| SexpReader.Tokenizer.Feed | sexp_parse/sexp_parse.c:232-299 | one character does to the state, the buffer and the token list what the step says |
| SexpReader.ListAppend | sexp_parse/sexp_parse.c:107-120 | the value goes into the empty first cell, or into a new one at the end |
| SexpReader.ReadList | sexp_parse/sexp_parse.c:122-135 | new cells store the items up to the closing parenthesis, where the cursor stops, or up to the last token |
| SexpReader.ReadForm | sexp_parse/sexp_parse.c:137-168 | the same for any value |
| SexpReader.DumpState | sexp_parse/sexp_parse.c:195-204 | the value read off the tokens is stored in new cells, and the token list goes on from the cursor |
| SexpReader.TypeChar | sexp_parse/sexp_parse.c:219-300 | one turn of the main loop, newline or not, is one step of the session |
| SexpReader.Converse | sexp_parse/sexp_parse.c:206-325 | after any text that does not crash the program, the last value shown is stored in the last cells made |
| SexpReader.DumpVal | sexp_parse/sexp_parse.c:170-193 | the cells are printed as the value they store |
| SexpReader.PrintAndRead | sexp_parse/sexp_parse.c:170-325 | a list of cells is printed and typed in; new cells store the last value shown, which is the list if and only if the exact condition holds |

## Left out

- Terminal and file input and output: `termkey_start`, `termkey_stop`, `advisereadable`, `waitkey`, terminfo loading, `posix_terminal.c`, `fancyreadline.c`.
- `curry_func.c`, `gc_allocator_class.c`, `fancyrl.c`, `string_class.c`: trampolines, the collector, stubs and wrappers.
- `rope_free`, allocator failure and the wide-character variants of the rope.
- Overflow of `size_t` in the rope's counts and of `int` in the sort's run lengths: both are unbounded here.
- `funcname2keysym`: its table is not sorted and its range takes in the end marker.
- Names in lower case with spaces, wrapped in brackets, mouse and mode texts, and truncated output of `termkey_strfkey`.
- Overflow of `%d` in `termkey_strpkey`, and of `atoi`: both are unbounded here.
- Resizing the reader's buffer (`termkey_set_buffer_size`).
- The terminfo driver and the CSI driver together: with both loaded a key of the CSI driver can come while the trie still waits, so streams are stated for the CSI driver alone.
- Reading from tables and arrays out of range, missing parameters that handlers use all the same, and overlong parameter lists: the specification answers `Undefined` there, and the reader's methods require that the bytes are no such sequence (`Strays`).
- The echo of the typed text, and what the S-expression program prints besides the values; a token longer than its buffer of 1024 characters (`Roomy`).
- TermKeys.TermKey.Run: requires that no step wraps the start around or leaves a byte behind, since the state is no longer the stream's then; `GetKey` and `FetchedState` say exactly when that happens.
