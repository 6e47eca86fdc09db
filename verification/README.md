# Verified models of Flycast's cheat engine, text formats, streams, audio buffer, debugger stub and replay log

This project models, in Dafny 4.11, the parts of the Flycast emulator whose behaviour is most intricate, and
proves what they are meant to guarantee. `dafny verify dfyconfig.toml` is the command that checks it.

- **Cheats** (`core/cheats.cpp`). GameShark code words are deciphered, compiled to a flat list of cheat records,
  and run against RAM with a one-record skip flag. `GameShark` is the compiler as a function, `CheatVm` the
  machine, `CodeMeaning` an interpreter that reads the code words directly and tests a guard at the moment a
  covered write is reached. The main theorem (`CodeDeciphering.CompiledCodesKeepTheirMeaning`) says that both
  leave the same RAM, for every well-formed list, scrambled or not. `CodeBlocks` proves multi-line conditionals
  all-or-nothing, `CheatIdempotence` that frames of set-value cheats settle at once unless one disturbs another, and
  `CheatDisturbance` exactly when a list does; `CodeBoundaries` states what families of lists outside the
  well-formed ones do. `CheatManagers` is the manager object, with its loops and in-place updates,
  proved against these functions; `CheatLifecycle` is the same object as a state machine over its public calls.
- **Text formats** (`core/cfg/ini.cpp`, `core/cfg/option.h`, cheat files). INI files, the list-of-strings option
  and cheat files are printer/parser pairs. For each the general result of loading what was saved is proved, and
  then an *exact* condition for everything to come back (`IniRoundTrip.RoundTripExactly`,
  `ListOptionIni.ListThroughIni`, `CheatFileRoundTrip.RoundTripExactly`).
- **Byte streams** (`core/archive/rzip.cpp`, `core/serialize.h`, `core/serialize.cpp`). RZIP streams read back for
  any sequence of writes and of reads; savestates are written in a counting and a filling pass and read back by
  mirrored operations, bare or inside a RetroArch container.
- **Audio ring buffer** (`core/audio/audiostream.h`). `RingBuffers` is the object called sequentially;
  `RingConcurrency` splits a writer and a reader into single byte copies, loads and publications of the cursors,
  and proves the queue property over every interleaving.
- **Debugger stub and replay log** (`core/debug/*`, `core/gdxsv/*`). Packet framing, a connection that cuts a stream
  into packets within the limit of its buffer however it is fragmented and answers them, breakpoints as an overlay
  on the program's memory, through mirrored addresses too (`BreakpointMirrors`, `BreakpointMarks`), the shadow call
  stack, block accesses of mixed widths, and the conversion of battle logs and whole runs of their playback. The
  framing is that of the "Overview" section of the GDB Remote Serial Protocol appendix of the GDB manual.

Objects the program updates in place are classes whose methods are proved against functions; what the program
promises is then proved about those functions. A round trip leaves open what its two sides agree on, and a meaning what
is written where, so the forms themselves are stated character by character and number by number in modules of their
own: `MemoryAccess`, `CheatFrames`, `CodeSeeds`, `CodeRecords`, `WidescreenHacks`, `CheatTexts`, `IniValues`,
`IniLines`, `IniTexts`, `ListTexts`, `RzipStreams`, `StatePasses`, `GdbAnswers`, `BreakpointTraps` and
`PlaybackMessages`.

## Corners found

Where the code does not do what one would expect:

- A scrambled one-shot conditional (code 0xD) that ends its list keeps its argument scrambled, because the decoder
  asks for two further words and the code has one. Scrambling is transparent exactly otherwise
  (`CodeDeciphering.ScramblingIsTransparent`).
- Conditionals in front of conditionals or of group writes (`CodeBoundaries`): inside a block a one-shot conditional
  has no effect when the next code is covered too; a failing test lets the first write of a block behind it through
  untested, whether it is that of an outer block or of a one-shot conditional; a one-shot conditional guards only the
  first value of a group write, and passes an empty one to act on the code behind it; a covered empty group whose test
  fails uncovers the next code.
- An INI value that starts with a quote loses it, and everything from its last quote on. So an option list whose
  first non-empty element is written in quotes never survives the file (`ListOptionIni.UnquotedListLoads`).
- A set-value cheat below byte size with a value increment carries the bits it keeps from RAM into its next value.
  Alone it still settles with the first frame, and so does any list in which no later record changes, on a byte such
  a cheat passes before its last repeat, a kept bit not written earlier in the frame
  (`CheatIdempotence.SettingTwiceIsSettingOnce`). `CheatDisturbance.ListSettlesExactly` says when any list settles;
  for such a cheat and a record behind it that carries nothing along `CheatDisturbance.PairSettlesExactly` says it
  of the RAM alone, and `CheatDisturbance.FilledNibbleDisturbs` gives a family of pairs and RAMs that do not.
- An RZIP stream without content in the old format, whose size field has 32 bits, is too short to be opened
  (`Rzip.EmptyOldStreamIsRefused`). A stream of 4 GiB and more is written with its size in full but opened as one in
  the old format (`Rzip.StreamOpensExactly`); a single call that writes 4 GiB or more never ends, and one that reads
  so much ends only if the stream runs out first (`RzipLoops`).
- In a RetroArch container a memory section with eight bytes of payload or less is found only if other sections
  follow it (`StateFile.ContainerLocates`).
- Of breakpoints on one halfword, set through mirrored addresses, the one removed last has to be the one set first for
  the program to get its memory back (`BreakpointMirrors.RemovingAllRestoresExactly`); `BreakpointMarks` follows any
  mixture of insertions and removals byte by byte.
- A message of the debugger stub is dropped while another is being written (`GdbConnections.AllIsSentExactly`).

## Model

| member | source | states |
|---|---|---|
| Memory.ReadRam | core/cheats.cpp:627-639 | a read of 16 or 32 bits is little-endian, every other width is a byte |
| Memory.WriteRam | core/cheats.cpp:641-656 | a store changes exactly the bytes of its width, least significant first |
| Memory.WriteBackIsIdentity | core/cheats.cpp:736-737 | leaving out the store of a value that is already there changes nothing |
| MemoryAccess.ReadIsLittleEndian | core/cheats.cpp:627-639 | what an access of each width reads, as a number of the bytes at the address modulo the RAM size |
| MemoryAccess.StoredIsRead | core/cheats.cpp:641-656 | what is stored is read again, cut off at the width of the access, and all other bytes stay |
| CheatVm.MergeBits | core/cheats.cpp:728-734 | the loop over eight bit positions takes masked bits from the value and the others from RAM |
| CheatVm.StoreRepeated | core/cheats.cpp:720-740 | a repeated store in place is the recursive store, kept bits and skipped stores included |
| CheatVm.CopyBytes | core/cheats.cpp:715-718 | the copy runs forward, so overlapping regions see bytes already copied |
| CheatVm.Apply | core/cheats.cpp:670-743 | the frame loop is the run of the record machine from a cleared skip flag |
| CheatFrames.HeardOnly | core/cheats.cpp:673-676 | a frame online is the frame of the built-in records, a pending skip included |
| CheatFrames.FrameIsDirect | core/cheats.cpp:673-714 | a frame is what a reading from front to back does that looks ahead: a failing test drops the next record heard, on or off, and records that are off do nothing |
| CheatFrames.FailedTestDropsNext | core/cheats.cpp:677-680 | behind an enabled test whose relation fails on what RAM holds, the next record heard, on or off, is as if not there |
| CheatFrames.OffChangesNothing | core/cheats.cpp:681-682 | without a pending skip a record that is off is as if not there |
| CheatFrames.StoresProgress | core/cheats.cpp:720-740 | of whole-byte stores the k-th has the address and value the k-th terms of two progressions with wrap-around give |
| CheatFrames.CopiesProgress | core/cheats.cpp:715-718 | of copies of any width the k-th goes from k bytes behind the one address to k bytes behind the other |
| CheatFrames.RecordActs | core/cheats.cpp:684-741 | what a record of each kind stores or copies, with its sums, differences and strides as numbers |
| CodeText.Parse | core/cheats.cpp:746-772 | the character loop is the parser: eight digits a code, anything else only between codes |
| CodeText.ParsePrinted | core/cheats.cpp:746-772 | codes printed as eight digits, each in either case, with any non-digits around them are read back |
| CodeText.AcceptedExactly | core/cheats.cpp:746-772 | a text is accepted if and only if every maximal run of hexadecimal digits has a multiple of eight of them, and refused as an invalid code otherwise |
| CodeCipher.CodeRoundTrip | core/cheats.cpp:785-804 | deciphering inverts enciphering for every plain word and key nibble 1 to 15, and every enciphered word shows its key |
| CodeCipher.ArgRoundTrip | core/cheats.cpp:806-808 | the argument cipher is a bijection with the given inverse |
| CodeCipher.DecryptedFits | core/cheats.cpp:785-804 | a deciphered word has no key nibble, and plain words are untouched |
| CodeSeeds.CodeIsRotatedAndMasked | core/cheats.cpp:777-804 | a code is its 28 bits rotated by ten places under a mask for each of the fifteen keys; plain codes stay |
| CodeSeeds.ArgumentIsRotatedAndMasked | core/cheats.cpp:806-808 | an argument is a sum with a fixed number, rotated by three places and masked |
| CodeSeeds.BitsAreNumber | core/cheats.cpp:785-808 | the bit patterns these act on are the numbers of the words |
| GameShark.DecipheredWords | core/cheats.cpp:824-840 | deciphering at a scrambled code changes it, and its arguments if it is a repeat or a one-shot conditional with two words behind it; every other word stays |
| CodeMeaning.CompiledEffect | core/cheats.cpp:843-953 | the record of a single write, step, repeat or copy code does what its words say |
| CodeMeaning.RepeatedStoreIsWriteEvery | core/cheats.cpp:927-940 | the repeat record writes the value at every stride |
| CodeMeaning.CopyUpIsCopyForward | core/cheats.cpp:941-953 | the copy record copies bytes upwards one by one |
| CodeMeaning.FrameGuarded | core/cheats.cpp:820-821 | a copied guard in front of a record performs it exactly if the test holds at that moment |
| CodeMeaning.GroupRecordsFrame | core/cheats.cpp:862-881 | a group write's records write each value under the guard tested before it, and leave no skip pending unless the group is empty and covered |
| CodeMeaning.OneShotSkips | core/cheats.cpp:965-992 | a one-shot conditional's record skips exactly when its relation fails, and changes no RAM |
| CodeMeaning.SkippedCode | core/cheats.cpp:965-992 | a pending skip swallows exactly a following code that yields one record |
| CodeMeaning.FrameIsMeaning | core/cheats.cpp:810-1029 | for plain well-formed lists, from any code and under any guard, running the compiled records is running the codes |
| CodeDeciphering.CompilesWhenAccepted | core/cheats.cpp:810-1029 | a list is accepted if and only if it deciphers to complete, supported codes |
| CodeDeciphering.CompiledCodesKeepTheirMeaning | core/cheats.cpp:810-1029 | main theorem: compile, enable all, run a frame leaves the RAM that the direct interpreter of the deciphered words leaves |
| CodeDeciphering.AddedCodesKeepTheirMeaning | core/cheats.cpp:670-743 | the same behind any earlier cheats that leave no test pending |
| CodeDeciphering.CompileDeciphers | core/cheats.cpp:824-840 | deciphering in place while compiling is compiling the deciphered list |
| CodeRecords.RefusedForFirst | core/cheats.cpp:841-1028 | a list that is not accepted is refused for the first deciphered code that is not complete and supported, with the error for its opcode and for whether it is cut off |
| CodeRecords.RecordsAreNew | core/cheats.cpp:822-823 | every record of a list is switched off, not built in, and titled for it |
| CodeRecords.RecordSpelled | core/cheats.cpp:841-1021 | the record of every code that has one, field by field from its words as numbers, and the guard and reach of a block |
| CodeRecords.GroupSpelled | core/cheats.cpp:862-881 | the records of a group write hold its values at every fourth address, all but the first titled as continued |
| CodeDeciphering.DecipherInverts | core/cheats.cpp:824-840 | deciphering a list enciphered under any keys gives it back, but for the last argument of a scrambled closing conditional |
| CodeDeciphering.ScramblingIsTransparent | core/cheats.cpp:824-840 | a scrambled list compiles to the same records if and only if it does not end in a scrambled one-shot conditional whose argument changes |
| CodeBlocks.GroupAllOrNothing | core/cheats.cpp:862-881 | a covered group write inside its block writes all its values or none |
| CodeBlocks.AllOrNothing | core/cheats.cpp:993-1021 | a block whose writes spare the tested halfword happens wholly or not at all |
| CodeBlocks.BlockRunsAllOrNothing | core/cheats.cpp:820-1021 | the same for the frame run over the compiled records, followed by the codes after the block |
| CodeBoundaries.CoveredOneShotIsIgnored | core/cheats.cpp:965-992 | a one-shot conditional inside a block, with the next code inside too, might as well not be there |
| CodeBoundaries.CoveredBlockLeaks | core/cheats.cpp:993-1021 | a block inside a block whose test fails performs its first write untested |
| CodeBoundaries.OneShotUnguardsBlock | core/cheats.cpp:965-1021 | a failing one-shot conditional swallows the first guard of a block behind it: that write happens untested |
| CodeBoundaries.OneShotPassesEmptyGroup | core/cheats.cpp:862-881 | a failing one-shot conditional before an empty group holds back the code behind the group |
| CodeBoundaries.CoveredEmptyGroupLeaks | core/cheats.cpp:862-881 | a covered empty group whose test fails makes a covered code behind it happen untested, and holds back an uncovered one |
| CodeBoundaries.OneShotSparesRestOfGroup | core/cheats.cpp:862-881 | a failing one-shot conditional holds back only the first value of a group write |
| CodeBoundaries.NestedTestFails | core/cheats.cpp:965-1021 | a concrete nested list for which the frame and the meaning differ |
| CheatIdempotence.ListSeen | core/cheats.cpp:691-741 | on every byte of a given RAM a list of set-value cheats acts as one bit patch |
| CheatIdempotence.ListPatchMask | core/cheats.cpp:691-741 | which bits of a byte that patch sets does not depend on the RAM |
| CheatIdempotence.SettingTwiceIsSettingOnce | core/cheats.cpp:691-741 | a second frame of set-value cheats changes nothing, of any sizes, masks, repeats, increments and overlaps, as long as no later record changes a kept bit that an increment below byte size carries along and that was not written earlier in the frame |
| CheatIdempotence.LoneCheatSettles | core/cheats.cpp:691-741 | so any single set-value cheat settles with the first frame |
| CheatIdempotence.PlainIsUndisturbed | core/cheats.cpp:691-741 | so does any list without an increment below byte size |
| CheatDisturbance.PairSettlesExactly | core/cheats.cpp:720-740 | an incrementing cheat and a record behind it settle on a RAM if and only if the first stores the same bits, but for those the second replaces, over the RAM and over what the second leaves of it |
| CheatDisturbance.ListSettlesExactly | core/cheats.cpp:691-741 | any list of set-value cheats settles on a RAM if and only if, in the second frame, every record that carries bits along stores what it did in the first, but for what the records behind it replace |
| CheatDisturbance.TwoRepeatsSettleExactly | core/cheats.cpp:720-740 | with two repeats this is a comparison of two values formed from one byte of the RAM |
| CheatDisturbance.PairSettlesOnEveryRam | core/cheats.cpp:720-740 | and they settle on every RAM of a size if and only if the two values agree for all 256 bytes |
| CheatDisturbance.FilledNibbleDisturbs | core/cheats.cpp:726-740 | a family of pairs and RAMs that do not: the second record fills the nibble the first keeps and carries over |
| CheatDisturbance.CountingDoesNotSettle | core/cheats.cpp:726-740 | one such pair, over two empty bytes |
| Events.RegisteredOnce | core/emulator.cpp:943-956 | registering leaves a listener there exactly once, and everyone else's registrations as they were |
| Events.RegisteredLast | core/emulator.cpp:943-948 | a registered listener comes behind all others, which keep their order |
| Events.EventManager.UnregisterEvent | core/emulator.cpp:950-956 | removes the first occurrence and touches no other event |
| Events.EventManager.RegisterEvent | core/emulator.cpp:943-948 | moves the listener to the end of its event's list and touches no other event |
| CheatLifecycle.PerformSettles | core/cheats.cpp:371-378 | each public call leaves the manager active exactly with cheats, and heard exactly when there is something to do |
| CheatLifecycle.RunsStaySettled | core/cheats.cpp:371-625 | so does every run of public calls, and no other listener is lost, added or moved |
| CheatLifecycle.SavingThenLoading | core/cheats.cpp:380-441 | loading the file just saved gives the cheats that fit, unless the file has reached a megabyte: then nothing changes |
| CheatLifecycle.AddingAppends | core/cheats.cpp:810-1044 | adding keeps every cheat that is there, in front of the compiled list if text and codes are good and saving works, and of nothing otherwise; file, widescreen hack and game stay |
| CheatLifecycle.EnablingTouchesOne | core/cheats.h:80 | switching a cheat changes its own switch and no other field or cheat |
| CheatLifecycle.LoadingReplaces | core/cheats.cpp:380-441 | a file below a megabyte replaces the list by what it yields, any other changes nothing |
| CheatLifecycle.ResettingStartsOver | core/cheats.cpp:443-625 | a reset to another game leaves the cheats of its file and then its built-in ones, to the same game the list as it was |
| CheatManagers.CheatManager.SetActive | core/cheats.cpp:371-378 | the flag and the registration follow the state machine |
| CheatManagers.CheatManager.ApplyWidescreen | core/cheats.cpp:660-669 | a word is set if it differs and has its original value, or any value when none is named, up to the first zero address |
| WidescreenHacks.WordByWord | core/cheats.cpp:660-669 | each word up to the first zero address is read back as its value if it had its original one or names none, and as before otherwise; no other byte changes |
| WidescreenHacks.ZeroEnds | core/cheats.cpp:662-663 | words behind a zero address are left out |
| CheatManagers.CheatManager.Apply | core/cheats.cpp:658-744 | a frame is the widescreen words, then the record machine if active |
| CheatManagers.CheatManager.AddGroup | core/cheats.cpp:862-881 | the loop over values appends the group's records, guards and continued titles |
| CheatManagers.CheatManager.AddCode | core/cheats.cpp:820-1028 | one round of the switch appends the records of one code, or reports the error of the specification |
| CheatManagers.CheatManager.AddCodes | core/cheats.cpp:818-1029 | the loop over codes, rewriting them in place, is the compiler |
| CheatManagers.CheatManager.AddGameSharkCheat | core/cheats.cpp:810-1044 | success appends and activates, every error, that of saving included, erases what was added |
| CheatManagers.CheatManager.SaveCheatFile | core/cheats.cpp:1046-1098 | the text written is the INI text of the numbered entries of the cheats that are not built in |
| CheatManagers.CheatManager.LoadCheatFile | core/cheats.cpp:380-441 | files of a megabyte or more, or missing, change nothing; others replace the list by what they yield |
| CheatManagers.CheatManager.ReadAll | core/cheats.cpp:404-435 | the loop reads the counted cheats, or up to the first without an address, and terminates |
| CheatManagers.CheatManager.Reset | core/cheats.cpp:443-625 | a new game drops the cheats, loads its file, adds its built-in ones; any reset chooses the widescreen hack anew |
| CheatFile.KeyInjective | core/cheats.cpp:1056-1096 | numbered keys name one cheat and one field each |
| CheatTexts.NumbersSpelled | core/cheats.cpp:1057-1096 | the names of a cheat's entries and the fields they hold, as text |
| CheatTexts.ConstantsSpelled | core/cheats.cpp:1059-1067 | the entries that are the same for every cheat; each is saved switched off |
| CheatTexts.KindAndSizeSpelled | core/cheats.cpp:1060-1088 | the number of each kind, and of each size |
| CheatTexts.DecimalSpelled | core/cheats.cpp:1056 | numbers are printed without leading zeros |
| CheatTexts.CheatsSpelled | core/cheats.cpp:1051-1097 | built-in cheats are left out, the others are numbered in order, and their number is saved |
| CheatTexts.NothingElseIsWritten | core/cheats.cpp:1050-1097 | there are no other entries |
| CheatTexts.FieldsAreRead | core/cheats.cpp:407-432 | each field is read from the entry of its name, and what it is without one |
| CheatTexts.KindAndSizeAreRead | core/cheats.cpp:417-418 | which number is which kind, and the size as a power of two |
| CheatTexts.LoadedAreTaken | core/cheats.cpp:404-435 | of the counted cheats, or without a count those before the first without an address, the ones of some kind with both addresses in RAM are taken, in order; of a negative count none |
| CheatTexts.CountIsSigned | core/cheats.cpp:404 | the count is read as a signed number, zero if there is none |
| CheatFileRoundTrip.SavedFileLoads | core/cheats.cpp:1046-1098 | the saved text loads as exactly the entries that were set, up to the unquoting of values |
| CheatFileRoundTrip.LoadOfSave | core/cheats.cpp:404-435 | what comes back, in order: every saved cheat that fits, with its size rounded to a known one and its description unquoted |
| CheatFileRoundTrip.RoundTripExactly | core/cheats.cpp:404-435 | all of them come back, switched off, if and only if each has a kind, a known size, addresses in RAM and a description without newline or leading quote |
| IniFiles.ParseIntOfDecimal | core/cfg/ini.cpp:81-95 | every printed unsigned number is read back |
| IniFiles.ParseBoolOfText | core/cfg/ini.cpp:57-69 | every printed flag is read back |
| IniValues.DecimalIsRead | core/cfg/ini.cpp:81-95 | white space, a sign, decimal digits and other text behind them: the number, wrapped around below zero and cut off above 32 bits |
| IniValues.HexIsRead | core/cfg/ini.cpp:71-95 | digits of either case behind 0x or 0X are hexadecimal, whatever stands behind them |
| IniValues.WhiteIsDefault | core/cfg/ini.cpp:81-95 | a text of nothing but white space leaves the default |
| IniValues.FlagIsRead | core/cfg/ini.cpp:57-69 | a flag is set if and only if its text is yes, true or on in any case, or 1 |
| IniLines.LeftOut | core/cfg/ini.cpp:186-212 | empty lines, comments, headers without end and entries without sign are left out |
| IniLines.HeaderIsRead | core/cfg/ini.cpp:193-203 | a header names what stands before the first closing bracket |
| IniLines.EntryIsRead | core/cfg/ini.cpp:206-233 | an entry is named by what stands before the first equal sign, without blanks around it, and left out without a name; one blank behind the sign is not part of the value |
| IniLines.QuotesAreTaken | core/cfg/ini.cpp:219-228 | a value in quotes ends at its last quote, or with the line if there is none |
| IniTexts.SettingIsSeen | core/cfg/ini.cpp:37-46 | a value that is set is seen unless a transient one shadows it, and no other entry changes |
| IniTexts.TransientKeepsStored | core/cfg/ini.cpp:125-138 | a transient value leaves the stored one as it was |
| IniTexts.OrderIsLexicographic | core/cfg/ini.cpp:256-259 | keys are in the order of their first different character, a prefix first |
| IniTexts.SectionSpelled | core/cfg/ini.cpp:253-273 | the text of a section, character by character: header, entries in order, empty line |
| IniTexts.SectionsInOrder | core/cfg/ini.cpp:253-273 | sections are written one after another, in order |
| IniTexts.TransientIsLeftOut | core/cfg/ini.cpp:259-268 | a transient value is not written, nor a header for it alone; the value it shadows is |
| IniFiles.IniFile.GetRaw | core/cfg/ini.cpp:37-46 | a transient value shadows the stored one |
| IniFiles.IniFile.GetInt | core/cfg/ini.cpp:81-95 | the number of the entry, or the default when there is none |
| IniFiles.IniFile.SetRaw | core/cfg/ini.cpp:125-138 | stores one of the two values and is seen by a lookup unless a transient one shadows it |
| IniFiles.IniFile.Load | core/cfg/ini.cpp:180-237 | the loop over lines is the line-by-line reader, into a file that may hold entries already |
| IniFiles.IniFile.SaveSection | core/cfg/ini.cpp:256-271 | the header comes with the first saved entry, transient-only entries are left out |
| IniFiles.IniFile.Save | core/cfg/ini.cpp:253-273 | the text is that of the sections in their sorted order, the unnamed one first |
| IniRoundTrip.PairParses | core/cfg/ini.cpp:208-233 | a printed entry with a readable name parses as that name and the unquoted value |
| IniRoundTrip.LoadOfSave | core/cfg/ini.cpp:180-273 | loading a saved file gives its persistent values, unquoted, and no transient one |
| IniRoundTrip.RoundTripExactly | core/cfg/ini.cpp:180-273 | it gives exactly the persistent values if and only if every section, name and value can be written down |
| ListOption.LoadOfSave | core/cfg/option.h:208-265 | loading a saved list gives its non-empty elements, whatever quotes and semicolons they hold, or the current value if there are none |
| ListTexts.QuotesInside | core/cfg/option.h:214-264 | inside of a quoted element two quotes stand for one, and so does one followed by neither semicolon nor end; without a closing quote the list is spoilt |
| ListTexts.EmptyPlacesAreLeftOut | core/cfg/option.h:208-264 | empty places between semicolons are left out, and an empty text leaves the list as it was |
| ListOption.StringListOption.DoSave | core/cfg/option.h:303-336 | the loop with its doubling of quotes is the printer |
| ListOption.StringListOption.DoLoad | core/cfg/option.h:214-264 | the two nested loops are the parser, and terminate |
| ListOptionIni.SavedListLines | core/cfg/option.h:303-336 | the saved text spans lines if and only if an element does |
| ListOptionIni.UnquotedListLoads | core/cfg/ini.cpp:222-228 | the list survives the loss of the first and last quote if and only if its first non-empty element needs none |
| ListOptionIni.ListThroughIni | core/cfg/option.h:208-336 | the same for a whole INI file saved and loaded |
| Rzip.ReadTakesPrefix | core/archive/rzip.cpp:99-140 | one read returns the next bytes, short only at the end, and leaves the rest readable |
| Rzip.StreamOpens | core/archive/rzip.cpp:26-51 | what a finished stream of any size opens to: from 4 GiB on the upper half of the size is read again as a chunk length |
| Rzip.StreamOpensExactly | core/archive/rzip.cpp:42-47 | it opens with its size, and at its first chunk, if and only if it holds less than 4 GiB |
| Rzip.StreamReadsBack | core/archive/rzip.cpp:26-176 | for any writes of together less than 4 GiB and any reads the reads return consecutive pieces of all that was written, and the size is the total |
| RzipLoops.WriteEndsExactly | core/archive/rzip.cpp:153-172 | the loop of a write ends if and only if the call is below 4 GiB |
| RzipLoops.ReadEndsExactly | core/archive/rzip.cpp:106-137 | the loop of a read ends if and only if the call is below 4 GiB, or the stream has no more than the low 32 bits of the length ask for |
| Rzip.OldStreamReadsBack | core/archive/rzip.cpp:42-47 | a non-empty stream with the 32-bit size field reads back the same |
| Rzip.EmptyOldStreamIsRefused | core/archive/rzip.cpp:33-41 | an empty one is not opened |
| RzipStreams.HeaderSpelled | core/archive/rzip.cpp:24-62 | the twenty bytes of a header, one by one |
| RzipStreams.NumberSpelled | core/archive/rzip.cpp:54-63 | numbers are written least significant byte first |
| RzipStreams.ChunksSpelled | core/archive/rzip.cpp:142-172 | a call makes a chunk of its length and its compressed bytes for every mebibyte |
| RzipStreams.HeaderIsRead | core/archive/rzip.cpp:31-51 | a file is opened if and only if it has twenty bytes and starts with the eight of the format; the size of its chunks and of its content are those named |
| RzipStreams.EmptyChunkIsSkipped | core/archive/rzip.cpp:114-115 | a chunk of length zero is skipped |
| RzipStreams.BrokenChunkEndsCall | core/archive/rzip.cpp:122-128 | a chunk that does not expand, or to too much, ends the call, and the next call goes on behind it |
| RzipStreams.CutChunkEndsStream | core/archive/rzip.cpp:111-121 | a chunk that is cut off ends the call and the stream |
| RzipFiles.RZipFile.OpenForWriting | core/archive/rzip.cpp:52-66 | the header goes behind what the file holds already |
| RzipFiles.RZipFile.Write | core/archive/rzip.cpp:142-176 | each call appends its chunks and counts its bytes |
| RzipFiles.RZipFile.CloseWritten | core/archive/rzip.cpp:80-97 | the finished file is what was there before, then the stream with its size filled in |
| RzipFiles.RZipFile.OpenForReading | core/archive/rzip.cpp:26-51 | opens exactly the streams the specification knows, and otherwise puts the position back |
| RzipFiles.RZipFile.Read | core/archive/rzip.cpp:99-140 | the loop over chunks returns what the specification reads, and leaves what it leaves |
| Savestate.SecondPassFits | core/nullDC.cpp:179-191 | the dry run counts exactly what the second pass fills, and with that limit the second pass cannot fail |
| Savestate.WritingSucceeds | core/serialize.h:172-194 | a pass with room writes every value at its place and disturbs nothing before it |
| Savestate.ReadableExactly | core/serialize.h:132-142 | whatever is read, it lies inside the data, if and only if the rest of the limit does |
| Savestate.MirrorReadsValues | core/serialize.h:116-142 | mirrored reads over matching memory yield the values in order and consume the same size, gaps by version included |
| StatePasses.WritingFailsExactly | core/serialize.h:172-194 | a pass fails if and only if something it stores ends behind the limit, whatever gaps it leaves |
| StatePasses.OnlyStoredIsChanged | core/serialize.h:172-194 | a pass changes no byte but those something is stored at |
| StatePasses.ReadingFailsExactly | core/serialize.h:116-142 | reading fails if and only if what is read and skipped ends behind the limit |
| StatePasses.GapsByVersion | core/serialize.h:116-128 | which versions have a gap or a value to skip |
| StateFile.HeaderOpens | core/serialize.cpp:135-147 | a written header opens if and only if its version is supported and its RAM size, if it has one, is the platform's |
| StatePasses.BareStateIsOpened | core/serialize.cpp:135-147 | which versions, sizes of RAM and lengths are refused, in this order, by the first bytes of a state |
| StatePasses.TagsSpelled | core/serialize.cpp:106-117 | the tags of a container and of its memory section |
| StateFile.StateReadsBack | core/serialize.cpp:103-148 | a whole state of any supported version opens, yields its values and ends with its size |
| StateFile.SavedStateLoads | core/nullDC.cpp:179-191 | the two passes and the way back together |
| StateFile.WalkFindsFirstMem | core/serialize.cpp:106-134 | from any section on, the walk stops at the first memory section, or fails |
| StateFile.ContainerLocates | core/serialize.cpp:106-134 | a container of any sections is located if and only if more than sixteen bytes are left from its first memory header, at that payload and with its length |
| StateFile.LongPayloadIsFound | core/serialize.cpp:106-134 | a first memory payload of more than eight bytes is always found |
| StateFile.ContainedStateReadsBack | core/serialize.cpp:103-148 | a state inside a container reads back as it does bare |
| Serializers.Serializer.Serialize | core/serialize.h:181-194 | appends at the current place or only counts, and refuses to pass the limit |
| Serializers.Serializer.Skip | core/serialize.h:172-177 | advances without a test of the limit |
| Serializers.Serializer.WriteHeader | core/serialize.cpp:150-157 | writes the version, and on consoles the RAM size |
| Serializers.Serializer.Run | core/nullDC.cpp:179-191 | any sequence of operations on the object is the specification's pass |
| Serializers.Deserializer.FindMem | core/serialize.cpp:106-134 | the loop over sections is the recursive walk, and terminates |
| Serializers.Deserializer.Open | core/serialize.cpp:103-148 | the object opens exactly the states of the specification, with its errors |
| Serializers.Deserializer.Deserialize | core/serialize.h:132-142 | reads at the current place, and refuses to pass the limit |
| Serializers.Deserializer.Skip | core/serialize.h:116-127 | skips only in states older than the given version, and refuses to pass the limit |
| Serializers.Deserializer.Run | core/serialize.h:116-142 | any sequence of mirrored operations on the object is the specification's |
| RingBuffers.Sizes | core/audio/audiostream.h:79-84 | what can be read and what can be written add up to the capacity less one |
| RingBuffers.AdvancedIs | core/audio/audiostream.h:87-104 | the cursor after both pieces is the cursor advanced by the size |
| RingBuffers.RingBuffer.Write | core/audio/audiostream.h:87-104 | succeeds exactly with room, and then the contents grow by the data at their end |
| RingBuffers.RingBuffer.Read | core/audio/audiostream.h:106-123 | succeeds exactly with enough bytes, and then takes them from the front |
| RingBuffers.RingBuffer.constructor | core/audio/audiostream.h:125-131 | a buffer of some capacity starts empty |
| RingConcurrency.StepSafe | core/audio/audiostream.h:87-123 | every single step of either thread keeps the safety invariant |
| RingConcurrency.EveryRunIsAQueue | core/audio/audiostream.h:73-123 | in every interleaving what is read is a prefix of what is written, the rest is in the buffer in order, and one place stays free |
| RingConcurrency.UnreadBytesStay | core/audio/audiostream.h:87-104 | no step overwrites a byte not yet released by the reader |
| RingConcurrency.FinishedReadReturnsNextBytes | core/audio/audiostream.h:106-123 | a finished read returns exactly the next unread bytes |
| RingConcurrency.WriteCallFills | core/audio/audiostream.h:87-104 | the steps of a write no one interrupts do to buffer and cursor what the sequential write does, or nothing without room |
| RingConcurrency.ReadCallTakes | core/audio/audiostream.h:106-123 | the same for a read |
| GdbHex.WordRoundTrip | core/debug/gdb_server.cpp:840-858 | a word printed in digits, least significant byte first, is read back |
| GdbHex.ByteRoundTrip | core/debug/gdb_server.cpp:38-45 | so is a byte |
| GdbAnswers.BytesSpelled | core/debug/gdb_server.cpp:840-853 | a byte is two lower-case digits, the high one first |
| GdbAnswers.WordsSpelled | core/debug/gdb_server.cpp:855-858 | a word is its four bytes, the least significant one first |
| GdbAnswers.EitherCaseIsRead | core/debug/gdb_server.cpp:38-45 | digits are read in either case |
| GdbAnswers.CharactersCount | core/debug/gdb_server.cpp:38-45 | what each of the 256 characters counts as, digit or not |
| GdbAnswers.DigitsAreRead | core/debug/gdb_server.cpp:47-54 | eight digits are read as the word they print, two as the byte, and none as zero |
| GdbHex.Unpack | core/debug/gdb_server.cpp:47-54 | the loop combines the digits of a given length, up to the eight of a word, or stops at the end of the string |
| GdbFraming.FrameReply | core/debug/gdb_server.cpp:373-391 | the loop over a reply, with its running checksum, produces the escaped frame |
| GdbFraming.FrameReplies | core/debug/gdb_server.cpp:373-393 | several replies go out one after another |
| GdbFraming.PacketMatcher | core/debug/gdb_server.cpp:95-116 | finds the end of the first packet, or none |
| GdbFraming.MatchIsStable | core/debug/gdb_server.cpp:95-116 | bytes that follow do not change a packet already recognised |
| GdbFraming.FragmentationDoesNotMatter | core/debug/gdb_server.cpp:64-70 | however any stream is cut up on its way, the packets and the remainder are the same |
| GdbFraming.FrameMatches | core/debug/gdb_server.cpp:95-116 | a frame is recognised with its last byte and not before |
| GdbFraming.RepliesArrive | core/debug/gdb_server.cpp:373-393 | any replies, framed and fragmented in any way, arrive as exactly those frames, pass the checksum test and unescape to the replies |
| GdbFraming.WriteData | core/debug/gdb_server.cpp:495-515 | the loop unescapes what follows the first colon, a trailing escape giving a flipped end of string |
| GdbFraming.BinaryWriteArrives | core/debug/gdb_server.cpp:495-518 | a framed binary write delivers its data, whatever bytes it holds |
| GdbAnswers.OddWritesSpelled | core/debug/gdb_server.cpp:495-515 | a trailing escape gives a flipped end of string, and without a colon the data starts with the packet |
| GdbFraming.ChangedByteIsNoticed | core/debug/gdb_server.cpp:940-949 | a frame with one changed body byte, other than to a hash, is refused |
| GdbConnections.LimitedOfTwo | core/debug/gdb_server.cpp:64-70 | cutting a stream within the limit of the buffer in two places at once or in turn is the same, and a buffer that is full stays so |
| GdbConnections.StaysOpenExactly | core/debug/gdb_server.cpp:64-70 | the limit makes no difference if and only if every packet fits it and what waits is below it |
| GdbConnections.Connection.Arrive | core/debug/gdb_server.cpp:64-70 | bytes wait in the socket until a read takes them |
| GdbConnections.Connection.Send | core/debug/gdb_server.cpp:72-84 | an empty message is not sent, and any other is dropped while one is being written |
| GdbConnections.Connection.WriteDone | core/debug/gdb_server.cpp:120-125 | makes room for the next message |
| GdbConnections.Connection.Report | core/debug/gdb_server.cpp:215-225 | a stop report is framed and sent unasked, under the same rule |
| GdbConnections.Connection.HandleCommand | core/debug/gdb_server.cpp:246-403 | the replies to a command, framed one after another; nothing for an empty one |
| GdbConnections.Connection.AnswerPacket | core/debug/gdb_server.cpp:931-953 | the branches send the framed replies to a break, nothing for a stray byte, a minus for a wrong checksum, a plus and the framed replies for a command |
| GdbConnections.Connection.HandlePacket | core/debug/gdb_server.cpp:920-958 | takes one packet off the buffer, answers it, and ends the connection if the command fails |
| GdbConnections.Connection.Complete | core/debug/gdb_server.cpp:64-70 | bytes are read as they come until they hold a packet, which is handled, or fill the buffer, which ends the connection |
| GdbConnections.EveryRunCutsAlike | core/debug/gdb_server.cpp:920-958 | in every run the packets handled are the first of the whole stream: all of them once nothing more happens, and when the buffer has run full |
| GdbConnections.AllIsSentExactly | core/debug/gdb_server.cpp:72-84 | all messages are sent, in order, if and only if none comes up while another is being written |
| GdbConnections.OffersAnswers | core/debug/gdb_server.cpp:920-958 | without reports of its own a connection has the answers to its packets sent, in order, and hands over their commands |
| GdbConnections.Conversation | core/debug/gdb_server.cpp:920-958 | framed commands, fragmented in any way, come back to a client as an acknowledgement and the frames of the replies for each in turn |
| GdbAnswers.DamagedIsRefused | core/debug/gdb_server.cpp:940-947 | a frame with one changed body byte is answered with a single minus, and no command is handed over |
| GdbAnswers.CommandIsAnswered | core/debug/gdb_server.cpp:948-953 | a frame is answered with a plus and the frames of the replies, and its command is handed over |
| GdbAnswers.ResentIsAnswered | core/debug/gdb_server.cpp:931-958 | a damaged frame followed by the frame itself is answered with minus, plus and replies, and its command is handed over once |
| GdbAnswers.LooseByteIsHandled | core/debug/gdb_server.cpp:931-939 | a break is answered with the replies to it, and a stray byte with nothing |
| GdbAnswers.FailureEndsConnection | core/debug/gdb_server.cpp:920-958 | a command that fails ends the connection, without an answer |
| GdbAnswers.FramesSpelled | core/debug/gdb_server.cpp:373-391 | frames and escapes spelled out: an empty reply, a reply of two characters with its sum, and the four bytes that are escaped |
| GdbAnswers.UnfinishedPacketEnds | core/debug/gdb_server.cpp:64-70 | an unfinished packet waits up to 4095 bytes, and one more ends the connection |
| Breakpoints.InsertKeeps | core/debug/debug_agent.h:220-233 | inserting keeps the overlay: trap shown, the program's own halfword saved |
| Breakpoints.RemoveKeeps | core/debug/debug_agent.h:234-246 | removing shows the program's halfword again |
| BreakpointTraps.InsertShowsTrap | core/debug/debug_agent.h:220-233 | a new breakpoint shows the two bytes of its trap, has saved those that were there, and changes no other |
| BreakpointTraps.RemoveShowsSaved | core/debug/debug_agent.h:234-246 | a breakpoint taken away leaves the two bytes it had saved |
| Breakpoints.StepKeeps | core/debug/debug_agent.h:101-108 | a step lifts the breakpoint it starts on and puts it back over what the step stored there |
| Breakpoints.EveryRunIsAnOverlay | core/debug/debug_agent.h:101-246 | over every run memory is the program's with the trap at exactly the set breakpoints |
| Breakpoints.RemovingAllRestores | core/debug/debug_agent.h:234-246 | breakpoints on halfwords of their own, after any run of insertions, removals, stores and steps: removing all that are left, in any order, restores the program's memory |
| Breakpoints.StoreKeepsExactly | core/debug/debug_agent.h:220-246 | a store keeps the overlay if and only if it is away from the breakpoints or stores what both sides have there |
| BreakpointMirrors.RunLays | core/debug/debug_agent.h:101-233 | over any run of insertions at even addresses, mirrored or not, stores and steps, the first breakpoint on a halfword has saved the program's own, every other the trap |
| BreakpointMirrors.RemovalsShow | core/debug/debug_agent.h:234-246 | after removals in any order a halfword shows what the breakpoint removed last there had saved |
| BreakpointMirrors.RemovingAllRestoresExactly | core/debug/debug_agent.h:101-246 | removing them all restores the program's memory if and only if, on every halfword, the one removed last is the one inserted first, or the program has the trap there itself |
| BreakpointMirrors.InsertionOrderLeavesTrap | core/debug/debug_agent.h:220-246 | two breakpoints on one halfword removed in the order of their insertion leave the trap there |
| BreakpointMirrors.MirroredTrapStays | core/debug/debug_agent.h:220-246 | one such pair, in a memory of two bytes |
| BreakpointMarks.RunAgrees | core/debug/debug_agent.h:101-246 | over any run, removals and mirrors included, memory and saved halfwords are the program's but for exactly the bytes that marks, kept without looking at the memory, say are the trap's |
| BreakpointMarks.RestoredExactly | core/debug/debug_agent.h:101-246 | after any run the memory is the program's if and only if the program has the trap's byte wherever one is marked |
| BreakpointMarks.LatestFirstRestores | core/debug/debug_agent.h:101-246 | any run that removes the latest breakpoint on a halfword first, and leaves none, restores the program's memory |
| BreakpointMirrors.ReverseOrderRestores | core/debug/debug_agent.h:234-246 | so removing them in reverse order always does |
| DebugMemory.ReadIsBlock | core/debug/debug_agent.h:167-188 | an access of any width reads the bytes of the block |
| DebugMemory.WrittenReadsBack | core/debug/debug_agent.h:162-219 | a block no longer than the memory reads back as it was written |
| DebugAgents.DebugAgent.InsertMatchpoint | core/debug/debug_agent.h:220-233 | the object follows the specification: other lengths refused, a second insertion does nothing |
| DebugAgents.DebugAgent.RemoveMatchpoint | core/debug/debug_agent.h:234-246 | the object follows the specification: unknown breakpoints refused |
| DebugAgents.DebugAgent.Step | core/debug/debug_agent.h:101-108 | remove, run, insert again where one was removed |
| DebugAgents.DebugAgent.ReadMem | core/debug/debug_agent.h:162-191 | the loop of mixed widths returns the bytes of the block |
| DebugAgents.DebugAgent.WriteMem | core/debug/debug_agent.h:192-219 | the loop of mixed widths stores the bytes of the block |
| DebugAgents.DebugAgent.SubroutineReturn | core/debug/debug_agent.h:337-341 | pops the frames whose stack pointer has been reached |
| DebugAgents.DebugAgent.SubroutineCall | core/debug/debug_agent.h:331-335 | pops as a return does, then pushes |
| ShadowStack.PoppingKeepsAbove | core/debug/debug_agent.h:337-341 | popping a descending stack keeps exactly the frames above the stack pointer |
| ShadowStack.StackIsLiveCalls | core/debug/debug_agent.h:331-341 | after any events the stack is exactly the calls whose stack pointer every later event stayed below, strictly descending |
| ReplayMessages.KeyMessageCarries | core/gdxsv/mcs_message.h:107-216 | a created key message has its kind, its sender and its input |
| ReplayMessages.KindsExactly | core/gdxsv/mcs_message.h:62-83 | which messages are starts and which carry one or two inputs, by their length and the high half of their second byte |
| ReplayMessages.KeyMessageSpelled | core/gdxsv/gdxsv_backend_replay.cpp:1136-1139 | the ten bytes of a replayed message |
| ReplayMessages.KeyMessage2Carries | core/gdxsv/mcs_message.h:188-196 | a created message of two inputs carries the first and then the second |
| ReplayMessages.HalvesReplace | core/gdxsv/mcs_message.h:198-214 | replacing any message of two inputs of a log by its two halves leaves every player's rounds as they were |
| ReplayMessages.CreatedKinds | core/gdxsv/mcs_message.h:62-125 | the kinds of created messages, byte by byte |
| ReplayMessages.RoundsOneMore | core/gdxsv/gdxsv_backend_replay.cpp:857-867 | one more message starts a round of its sender, adds to the last one, or changes nothing |
| ReplayLog.UnpackInverts | core/gdxsv/gdxsv_backend_replay.cpp:1133-1136 | packing up to four inputs into a word loses nothing, and unused lanes are zero |
| ReplayLog.Chunk | core/gdxsv/gdxsv_backend_replay.cpp:851-869 | the loop over messages collects every player's rounds |
| ReplayLog.PackRounds | core/gdxsv/gdxsv_backend_replay.cpp:871-886 | the loops over rounds, frames and players pack each round up to its shortest player, with its start recorded |
| ReplayRounds.RoundsArePreserved | core/gdxsv/gdxsv_backend_replay.cpp:871-886 | a converted round has the least length, and holds for each player that many of the inputs |
| ReplayRounds.RoundsTile | core/gdxsv/gdxsv_backend_replay.cpp:1403-1426 | the bounds of the rounds follow each other without a gap from the first frame to the last |
| Playbacks.Playback.GetRoundBounds | core/gdxsv/gdxsv_backend_replay.cpp:1403-1426 | the branches compute those bounds, round counts out of range clamped |
| Playbacks.Playback.ReceiveStart | core/gdxsv/gdxsv_backend_replay.cpp:1087-1115 | a start message goes to the first frame of its round, checks or records its random number, records a start that is new, and queues its commands; in a take-over it only asks for another try |
| Playbacks.Playback.ReceiveKey | core/gdxsv/gdxsv_backend_replay.cpp:1120-1148 | a key message is answered with every user's input of the frame, the player's own and delayed one in a take-over; the frame is done, and the last one ends the replay unless taken over |
| Playbacks.AnswerCarries | core/gdxsv/gdxsv_backend_replay.cpp:1124-1142 | each message of an answer is a whole key message with its user and that user's input |
| Playbacks.InputsComeDelayed | core/gdxsv/gdxsv_backend_replay.cpp:1126-1132 | in a take-over the player's inputs come out in order, each as many frames later as the delay says |
| PlaybackRuns.RunStands | core/gdxsv/gdxsv_backend_replay.cpp:1087-1148 | after any run of start and key messages the next frame is as far behind the start of the last round as inputs were sent since |
| PlaybackRuns.RunAnswersRound | core/gdxsv/gdxsv_backend_replay.cpp:845-1148 | in any run over a recorded and converted log, the next answer within a round carries each player's input of that place in that round |
| PlaybackRuns.WholeLogComesBack | core/gdxsv/gdxsv_backend_replay.cpp:845-1148 | played from end to end, the answers hold every player's rounds in order, each as far as its shortest player got |
| PlaybackMessages.RefusedExactly | core/gdxsv/gdxsv_backend_replay.cpp:1102-1111 | a run ends for a random number if and only if one given differs in its 16 bits from the one recorded for its round |
| PlaybackMessages.StartsAreRecorded | core/gdxsv/gdxsv_backend_replay.cpp:1093-1111 | beyond the recorded starts, and while the log is kept, each start is recorded where it happens, with its number |
| PlaybackMessages.NothingIsRecorded | core/gdxsv/gdxsv_backend_replay.cpp:1093-1111 | otherwise nothing is, and the inputs never change |
| PlaybackMessages.StartsAreQueued | core/gdxsv/gdxsv_backend_replay.cpp:1087-1115 | the commands each start queues, in order; in a take-over only another try |
| PlaybackMessages.EndsWithLastFrame | core/gdxsv/gdxsv_backend_replay.cpp:1143-1148 | a replay is over with the input that plays its last frame and with no other, and in a take-over never |
| PlaybackMessages.TakeoverAnswers | core/gdxsv/gdxsv_backend_replay.cpp:1120-1142 | over inputs in a row in a take-over the player's message carries the input of as many frames before as the delay says, and the others the recorded ones |
| PlaybackMessages.NothingAfterLast | core/gdxsv/gdxsv_backend_replay.cpp:1120-1142 | behind the last frame every input is zero |
| PlaybackMessages.SoughtStart | core/gdxsv/gdxsv_backend_replay.cpp:1403-1426 | a round sought to starts at that frame, and has its end and number as any |

## Left out

- Addresses outside RAM, hardware registers and memory handlers: every address is folded by the RAM size, as the
  RAM mirrors are. RAM sizes are powers of two in the original, so 32-bit wrap-around needs no separate treatment.
- Nested conditionals in code lists: no general meaning is given to them; `CodeBoundaries` states what the compiled
  records do with them.
- The widescreen and built-in cheat tables and the choice of a game's cheat file: they are parameters of a reset.
- The library build without cheat files and INI storage (`LIBRETRO`), and failures of file reads and writes other
  than the refusal to save or a file that ends early.
- Saving the name of a loaded cheat file in the configuration, which no modelled function reads.
- INI loading with C escapes, which has no printer, and floating-point entries; characters above 127 are no white
  space here, as in the C locale.
- `broadcastEvent` and listeners that register others while they are called.
- Sizes in a cheat file beyond 31: a shift by such a count uses its low five bits, as the common processors do.
- ListOption.StringListOption.DoLoad: a quoted element without end yields None, where the original reads on past
  the end of its buffer.
- CheatDisturbance.PairSettlesExactly: a second record that carries bits along itself; `ListSettlesExactly` takes any,
  with a condition on both frames in place of one on the RAM alone.
- CheatDisturbance.TwoRepeatsSettleExactly: the same.
- CheatDisturbance.PairSettlesOnEveryRam: the same.
- RzipFiles.RZipFile.Write: calls of 4 GiB and more are excluded, as the original's loop does not end for them
  (`RzipLoops.WriteEndsExactly`).
- RzipFiles.RZipFile.Read: calls for which the original's loop does not end are excluded
  (`RzipLoops.ReadEndsExactly`).
- Rzip.StreamReadsBack: streams of 4 GiB and more, which open as something else (`Rzip.StreamOpensExactly`); what
  reading them yields depends on what the compression library makes of misplaced bytes.
- Compression itself: zlib is a pair of functions, of which is assumed that output is not empty, fits its buffer and
  expands to the input. Chunks that do not expand end a read early, as in the original.
- Serializers.Deserializer.Open: data of fewer than eight bytes is no container; the original compares eight bytes
  all the same.
- Serializers.Deserializer.Deserialize: a read that the limit allows but the data does not hold, as in a memory section
  said to be longer than its file, is excluded; the original reads on past the end of its memory.
- Serializers.Deserializer.Run: operations with such a read are excluded. None has one, whatever the operations are, if
  and only if the limit lies inside the data (`Savestate.ReadableExactly`).
- The individual devices' savestate operations: any sequence of operations stands for them.
- Weaker memory orders: the ring buffer's cursors are sequentially consistent atomics, as the default is in C++.
- GdbHex.Unpack: lengths over eight, which shift by more than the width of a word and which no caller passes.
- GdbConnections.Connection.HandleCommand: the switch over commands. The replies are any function of the commands so
  far; of the commands themselves binary writes, memory blocks, steps and breakpoints are modelled on their own.
- Errors of the debugger's socket, and a second client.
- Breakpoints.RemovingAllRestores: breakpoints that share a halfword; `BreakpointMarks.RestoredExactly` has the exact
  condition for any run, and `BreakpointMirrors` a plainer one for runs that remove none before all are removed.
- Programs that store onto a halfword with a breakpoint other than the one stepped on; `Breakpoints.StoreKeepsExactly`
  says when one store does no harm.
- Breakpoints at odd addresses; watchpoints and hardware breakpoints, which the original refuses.
- Cutting a log into messages (`McsMessageReader`), which reads past its buffer for short connection ids: messages
  are taken as cut.
- ReplayLog.Convert: logs with a key message before its sender's first start, with senders beyond the users, or with
  fewer rounds for a player than for the first one are excluded; the original indexes out of bounds there.
- PlaybackRuns.RunAnswersRound: runs that take over or are taken back by the player, whose commands for seeking and
  saving states are queued here but not carried out; the key display and slow motion are not modelled.
