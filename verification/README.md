# Verified models of the object fixer, HEXCOM and the Aztec driver

These modules model four parts of the cross-development tools and prove what they promise. Each
part has a specification on values, methods in the form of the C code that are proved to compute
it, and lemmas that compare it with an independent meaning.

**The PL/I object fixer** (`drpli_objfix`). `OmfFormat` has the record stream, its reader and its
writer; `OmfBuffers` the growable buffers; `OmfSegments` the SEGDEF patch; `OmfFixups` the
subrecords of FIXUPP records as the TIS Relocatable Object Module Format Specification 1.1 lays
them out (section "FIXUPP - Fixup Record"), what they mean, and the rewriting of thread references
in one pass over the bytes; `OmfMeaning`, `OmfExpand`, `OmfCounts` and `ObjFix` the theorems, the
loops, the counts and the whole conversion; `ObjSample` one conversion byte by byte. A module means
its records in order with every FIXUPP record replaced by located fixups, where threads stay
defined from one FIXUPP record to the next.

**HEXCOM**. `HexText` has the scan of Intel HEX text and its round trip, `HexLoader` the 64K image
and the written file. What a file should hold is stated without any 16-bit address masking.

**The Aztec driver's execution**. `Disk` has host files, a workspace and a script of decisions of
the environment: which call fails, how much a read or write transfers, what a tool leaves behind,
and which signal arrives between two calls. It records the host files after every call, every tool
run, and how many calls failed by a decision of the environment. `Publish` has the DOS publication
(staged copy, backup, rename, restore) and the Unix one (staged copy, atomic rename); `Launch` what
a tool gets to see (its own path, its words, its response file) and the commands in order;
`Execute` the run of a plan on both hosts. The theorems speak of every recorded state, so they also
hold for a run that stops between two calls. They also give the cause of every failure: a call or a
tool that failed, a signal, or a name that is too long or not acceptable for the host, and nothing
else. And they say what a single failure leaves: complete outputs, no temporary file, and on DOS at
most one backup.

**The Aztec driver's paths, planning and printing**. `DosPath` folds `.` and `..`, `GuestPath` maps
host paths to guest drives (on DOS a path is its own guest path) and checks 8.3 names, `PlanNames`
and `PlanParts` have the workspace names and the pieces of a plan, `Planner` drafts and serialises
the commands, and `PrintPlan` prints a plan and reads it back. A planner works in a world that is
either a Unix host or a DOS host. `PlanShapes` says for every command of a plan which word stands
in which place, and `PlanFiles` which files the names in a request mean. `PlanWords` says which
words of a plan are workspace files and which are host files, `PlanRuns` what a plan guarantees to
its run, `PlanTools` that the files started are the planned tools, and `PlanTails` which tools of a
plan get all their words on DOS. `Acc` puts planning, printing and running together: what one
invocation of the driver does to the host files.

Some results are sharper than the comments in the code, or show where it falls short of them. Each
failing side has a lemma with a concrete input.

- A fixup whose target comes from a thread is rewritten into bytes that read back in place exactly
  when the thread is defined and has a method below 3, or method 3 in a fixup without displacement.
  Frame threads never break the framing, but an undefined one changes the meaning: it becomes the
  frame of the target. So the rewritten records mean what the original ones mean if and only if all
  targets are usable and all frame threads are defined (`MeaningKeptExactly`; `UndefinedFrameThread`
  and `UnusableTargetThread` fail). The decoder follows the code in reading no datum for frame
  methods above 2 and for target method 7, and in tying the displacement to the P bit.
- The conversion is idempotent in its bytes even when the data of a segment does not fit 16 bits.
  The second pass then reports a patch again, and the segment length does not cover its data
  (`DataOverSixteenBits`).
- HEXCOM accepts records that wrap past FFFFH while it reads them (`WrappingIsAccepted`). The size
  check at the end refuses every such run, so nothing wrapped is ever written. A wrong type byte is
  not noticed, and a type of 1 drops the rest of the file. A length byte that is too small is
  noticed exactly when the shorter sum is not zero, and one that is too large is not noticed when
  the digits behind the record happen to balance it (`LongerLength`). The header comment speaks of
  the lowest address and of 00H padding; the code uses the address of the first record with data,
  and 1AH.
- The comment on the DOS publication says that a failure preserves the previous destination. It does
  so exactly when the destination could not be moved to its backup, or when the copy could not take
  its place and restoring it worked (`SwapPreserves`). It does not when only the backup cannot be
  removed (`RemovalFails`) or when restoring fails as well (`RestoringFails`). What holds after
  every failure is that the old content is whole under one of the two names.
- On DOS the run takes every word that begins with `E:\` for a workspace file. A source in the root
  of a real drive E is therefore silently replaced by the workspace file of its name, and one in a
  directory of drive E is refused when the tool is started, not when the plan is made (`WordOnE`,
  `SourcesOnE`). A tool root of 51 characters or more is refused at that point too (`DosToolsFit`).
- The Unix publication promises the same, and breaks it when closing the product fails after the
  rename (`ClosingFails`). A failure preserves the destination exactly when there was no rename or
  the rename itself failed (`FinishPreserves`).
- The check of the command tail comes before these words are replaced by longer paths, so the tail
  of a compile command can exceed 126 bytes, and then its tool gets only a part of its words
  (`TailIsCut`). On DOS all tools of a plan get all their words if and only if every compile command
  has room for the path of its product, and of its source if that lies on drive E (`PlanIsUncut`).
  Linker and squeeze commands always have.
- Canonicalising a canonical DOS path returns it, except for one of exactly 1023 characters
  (`LongestIsRefused`).

## Model

| member | source | states |
|---|---|---|
| OmfBuffers.ByteBuf.Reserve | src/plitools/drpli_objfix.c:45-57 | growing keeps the contents and makes room for the extra bytes |
| OmfBuffers.ByteBuf.Append | src/plitools/drpli_objfix.c:59-63 | the bytes follow the old contents |
| OmfBuffers.RecordList.Push | src/plitools/drpli_objfix.c:95-113 | one more record, the others as before |
| OmfBuffers.ParseRecords | src/plitools/drpli_objfix.c:125-147 | the scanning loop finds exactly the records of the recursive reader, with all its ways to stop |
| OmfBuffers.AddBytes | src/plitools/drpli_objfix.c:153-157 | the running 8-bit sum |
| OmfBuffers.WriteRecord | src/plitools/drpli_objfix.c:150-161 | appends the encoding with its length and checksum |
| OmfFormat.EncodeSumsToZero | src/plitools/drpli_objfix.c:153-160 | every written record sums to zero modulo 256 |
| OmfFormat.ParseUndoesEncode | src/plitools/drpli_objfix.c:125-161 | a written list that ends its module is read back exactly, whatever bytes follow |
| OmfFormat.RoundTripExactly | src/plitools/drpli_objfix.c:125-161 | reading back what was written gives the list if and only if no payload is over 65534 bytes, no type is 1AH and only the last record ends the module |
| OmfFormat.EncodeUndoesParse | src/plitools/drpli_objfix.c:125-161 | writing the records read from data with right checksums reproduces the data |
| OmfFormat.FileLengthIsLeast | src/plitools/drpli_objfix.c:435-440 | the file is the shortest of whole 128-byte sectors that begins with the encoding |
| OmfFormat.ParseFileImage | src/plitools/drpli_objfix.c:426-440 | the zero padding is not read as records |
| OmfSegments.ExtentIsMaximum | src/plitools/drpli_objfix.c:165-179 | the extent of a segment bounds the end of all its data and is reached by some |
| OmfSegments.ComputeSegSizes | src/plitools/drpli_objfix.c:165-179 | the loop computes every segment's extent |
| OmfSegments.DataEndsAt | src/plitools/drpli_objfix.c:169-176 | data ends at its little-endian offset plus its length |
| OmfSegments.PatchSegdefs | src/plitools/drpli_objfix.c:182-205 | the loop patches the k-th SEGDEF with the k-th size, counts the patches, and touches no other record |
| OmfSegments.PatchTouchesOnlyLengths | src/plitools/drpli_objfix.c:182-205 | no byte changes but the two length bytes of SEGDEFs number 1 to 255 |
| OmfSegments.SegdefCoversData | src/plitools/drpli_objfix.c:190-200 | the new length is the larger of the old length and the extent, and it covers all data of the segment, exactly when the extent fits 16 bits |
| OmfSegments.PatchTwice | src/plitools/drpli_objfix.c:182-205 | a second pass changes nothing and counts no patch exactly when all wanted sizes fit 16 bits |
| OmfSegments.GrownCounts | src/plitools/drpli_objfix.c:184-204 | the patch count is the number of SEGDEFs 1 to 255 whose data ends behind their length; if all sizes fit, it is the number of records that change |
| OmfSegments.GrownTwice | src/plitools/drpli_objfix.c:165-205 | the same for a second scan and patch together |
| OmfSegments.DataOverSixteenBits | src/plitools/drpli_objfix.c:190-200 | data beyond 16 bits: the patched length does not cover it, and the second pass patches again |
| OmfMeaning.ReadsBack | src/plitools/drpli_objfix.c:319-336 | an explicit fixup written by the tool is read as that fixup, in front of any bytes |
| OmfMeaning.StepThread | src/plitools/drpli_objfix.c:342-362 | the one pass and the format agree on a thread definition |
| OmfMeaning.StepFixup | src/plitools/drpli_objfix.c:247-341 | the bytes written for a fixup are those of the fixup with its threads replaced |
| OmfMeaning.ExpandReadsBack | src/plitools/drpli_objfix.c:246-363 | the expanded payload splits into exactly the input's fixups with their threads replaced, and the tables carried on agree |
| OmfMeaning.DetachedMeansTheSame | src/plitools/drpli_objfix.c:263-317 | without threads the expanded fixups mean the same exactly when the frame threads used are defined |
| OmfMeaning.ExpandIsExplicit | src/plitools/drpli_objfix.c:319-336 | the expanded payload holds only fixups with F=0 and T=0 |
| OmfMeaning.ExplicitIsFixed | src/plitools/drpli_objfix.c:246-363 | expanding such a payload is the identity and counts nothing |
| OmfMeaning.ExpandGrowsLittle | src/plitools/drpli_objfix.c:246-363 | three times the new length is at most five times the old |
| OmfMeaning.SurvivesExactly | src/plitools/drpli_objfix.c:281-336 | a rewritten fixup ends where it should if and only if its target is explicit or from a usable thread |
| OmfExpand.ParseFrame | src/plitools/drpli_objfix.c:263-279 | the frame to write, from the fixup or the frame table |
| OmfExpand.ParseTarget | src/plitools/drpli_objfix.c:281-317 | the target and displacement to write, and the end of the subrecord |
| OmfExpand.AppendFixup | src/plitools/drpli_objfix.c:319-336 | the bytes of an explicit fixup |
| OmfExpand.DefineThread | src/plitools/drpli_objfix.c:342-362 | bit 6 selects the table that gets the thread |
| OmfExpand.ExpandPayload | src/plitools/drpli_objfix.c:240-363 | the inner loop, with the thread tables updated in place |
| OmfExpand.ExpandFixuppThreads | src/plitools/drpli_objfix.c:223-377 | the outer loop, with tables carried over and thread-only records dropped |
| ObjFix.ExpansionKeepsMeaning | src/plitools/drpli_objfix.c:223-377 | with usable targets the expanded records hold, read without threads, as many fixups behind the same records, and they mean the same exactly when no undefined frame thread is used |
| ObjFix.UnusableMeansAnother | src/plitools/drpli_objfix.c:281-317 | if some target is not usable, the expanded records cannot be read or mean something else |
| ObjFix.MeaningKeptExactly | src/plitools/drpli_objfix.c:223-377 | for all readable records in bounds: the expanded records can be read and mean the same if and only if every target is usable and every frame thread is defined |
| ObjFix.UndefinedFrameThread | src/plitools/drpli_objfix.c:263-279 | a fixup through an undefined frame thread changes its meaning |
| ObjFix.UnusableTargetThread | src/plitools/drpli_objfix.c:281-317 | a fixup through a target thread of method 4 cannot be read back as it was |
| ObjFix.ExpandRecordsIsExplicit | src/plitools/drpli_objfix.c:365-371 | no expanded record holds a thread or a thread reference |
| ObjFix.ExpandTwice | src/plitools/drpli_objfix.c:223-377 | expanding an expanded list is the identity with all counts zero |
| ObjFix.OtherRecordsPass | src/plitools/drpli_objfix.c:232-237 | all other records pass unchanged and in order, for any input in bounds |
| ObjFix.ExpansionFits | src/plitools/drpli_objfix.c:365-367 | FIXUPP payloads up to 39320 bytes fit the 16-bit length after expansion |
| OmfCounts.ExpansionCounts | src/plitools/drpli_objfix.c:223-377 | where no displaced target thread is undefined, the tool counts the fixups that use a thread, and drops and counts the FIXUPP records that hold no fixup |
| ObjFix.RewrittenReadsBack | src/plitools/drpli_objfix.c:426-440 | the written file is read back as the rewritten records exactly when none is too long |
| ObjFix.ConversionIsIdempotent | src/plitools/drpli_objfix.c:397-440 | a second conversion returns its input byte for byte, with no fixup expanded and no thread record removed, and no SEGDEF patched exactly when all data fits |
| ObjFix.ConversionKeepsMeaning | src/plitools/drpli_objfix.c:397-440 | the written file can be read and means what the patched input means if and only if every target is usable and every frame thread is defined |
| ObjFix.ShortFixupsDoNotOverflow | src/plitools/drpli_objfix.c:150-152 | short FIXUPP records exclude the overflow that the two theorems above exclude |
| ObjFix.ConversionCounts | src/plitools/drpli_objfix.c:397-475 | a conversion succeeds if and only if there are records and the last one is MODEND; its counts are those of short SEGDEFs, of fixups that use threads, and of FIXUPP records without a fixup |
| ObjFix.FixObjFile | src/plitools/drpli_objfix.c:384-475 | the whole conversion; it succeeds if and only if the last record is MODEND, and reports the three counts |
| ObjFix.WriteFile | src/plitools/drpli_objfix.c:426-440 | all records written and padded to 128 bytes |
| ObjSample.SampleIsConverted | src/plitools/drpli_objfix.c:384-475 | the bytes of an object file with a short segment and both kinds of threads, and the bytes and counts that it is converted to |
| ObjSample.UndefinedThreads | src/plitools/drpli_objfix.c:271-300 | the bytes written for an undefined frame or target thread |
| HexText.HexDigits | src/tools/hexcom.c:83-97 | every digit, capital or small, has its value, and no other character has one |
| HexText.ScanUndoesText | src/tools/hexcom.c:365-462 | any list of loadable records, spelled in either case with any junk between, is scanned as that list |
| HexText.CorruptionIsFound | src/tools/hexcom.c:415-446 | one wrong address, data or checksum byte always ends the scan with a fault, after the records before it |
| HexText.WrongTypeIsNotFound | src/tools/hexcom.c:403-407 | no wrong type byte is found: type 1 ends the scan and drops what follows, any other type skips the record without a look at its checksum |
| HexText.ShorterLength | src/tools/hexcom.c:415-446 | a length byte that is too small is found exactly when the bytes up to the supposed checksum do not sum to zero; otherwise the data is cut |
| HexText.ShorterMayPass | src/tools/hexcom.c:424-446 | such a record with a sum of zero |
| HexText.LongerLength | src/tools/hexcom.c:424-446 | a length byte that is too large: accepted exactly when enough digits follow the record, balance the surplus modulo 256, and leave the addresses within the image; otherwise a fault |
| HexText.LongerMayPass | src/tools/hexcom.c:424-446 | a record and following digits for which it is accepted |
| HexLoader.ScannedIsStorable | src/tools/hexcom.c:448-456 | every accepted record is stored inside the image, addresses cut to 16 bits |
| HexLoader.ImageHoldsLast | src/tools/hexcom.c:448-456 | the image holds at every address what was loaded there last |
| HexLoader.FirstIsFirst | src/tools/hexcom.c:448-456 | the first address is that of the first record with data |
| HexLoader.LastRecordWins | src/tools/hexcom.c:448-456 | at an address counts the last record that has data there |
| HexLoader.WrittenExactly | src/tools/hexcom.c:479-528 | a file is written exactly when it fits behind the first address, and then no accepted record runs past the image |
| HexLoader.WrittenFile | src/tools/hexcom.c:479-528 | the file holds what was loaded last at each address of the span, 1AH behind it, and has the padded or bare length |
| HexLoader.FileOfText | src/tools/hexcom.c:365-528 | from written records to the file, for every spelling of their text |
| HexLoader.TwoBytes | src/tools/hexcom.c:365-528 | the file for one line of text, digit by digit and byte by byte |
| HexLoader.WrappingIsAccepted | src/tools/hexcom.c:448-528 | a record that wraps past FFFFH is accepted, and no file is written |
| HexLoader.Source.ReadByte | src/tools/hexcom.c:104-133 | two digits make a byte; a bad digit or the end of text is an error |
| HexLoader.Loader.SeekColon | src/tools/hexcom.c:370-375 | skips to the next colon, end mark or end |
| HexLoader.Loader.ReadBody | src/tools/hexcom.c:424-446 | reads data and checksum, with the bad digit before the bad sum |
| HexLoader.Loader.Store | src/tools/hexcom.c:448-459 | stores with masked addresses, or stops at the first one outside the image |
| HexLoader.Loader.LoadRecord | src/tools/hexcom.c:377-461 | one record, in the order of the checks of the program |
| HexLoader.Loader.Load | src/tools/hexcom.c:365-462 | the record loop: the first fault, or image and addresses for all records |
| HexLoader.Loader.WriteSpan | src/tools/hexcom.c:479-528 | padding, size check and the bytes written |
| HexLoader.Convert | src/tools/hexcom.c:260-537 | a whole run |
| Publish.DosCopy | src/aztec43-acc/execdos.c:428-445 | success means a complete copy, and failure that a call failed; only the staged file ever differs |
| Publish.DosWrite | src/aztec43-acc/execdos.c:430-438 | one buffer is appended in as many writes as it takes, unless one fails |
| Publish.DosReplace | src/aztec43-acc/execdos.c:450-468 | the choice between a new and an existing destination, with all failures |
| Publish.DosStage | src/aztec43-acc/execdos.c:407-449 | a complete copy under a new name, or the destination as it was; a single failure leaves nothing |
| Publish.DosSwap | src/aztec43-acc/execdos.c:452-468 | every state on the way is safe, every failure keeps the old content, and result and files are those of `SwapEnd`: a function of which calls fail |
| Publish.SwapPreserves | src/aztec43-acc/execdos.c:452-468 | the old destination is preserved if and only if moving it away failed, or putting the copy in its place failed and moving it back did not |
| Publish.SwapUndone | src/aztec43-acc/execdos.c:452-468 | which calls must succeed for success; a single failure is undone, but that of removing the backup leaves old and new content side by side |
| Publish.RemovalFails | src/aztec43-acc/execdos.c:466-467 | a failure after which the destination is new and the backup old |
| Publish.RestoringFails | src/aztec43-acc/execdos.c:460-464 | a failure after which only the backup is there |
| Publish.SwapStates | src/aztec43-acc/execdos.c:452-468 | each state that replacing a file can pass through is safe |
| Publish.DosPublish | src/aztec43-acc/execdos.c:390-469 | after any step the destination is old or complete new content, or the old content is whole under another name; success changes the destination and nothing else; failure means that a call failed or the directory's path is too long; a single failure is rolled back, but for a backup that cannot be removed; a failure preserves an existing destination exactly when no swap was begun or the swap preserves it |
| Publish.UnixCopy | src/aztec43-acc/execunix.c:393-420 | a complete copy unless a call fails or a signal arrives |
| Publish.CleanUp | src/aztec43-acc/execunix.c:439-446 | what is still open is closed and a temporary file removed; which of these calls fail decides the result and the files |
| Publish.UnixPublish | src/aztec43-acc/execunix.c:350-447 | after any step the files are those before or after the publication, apart from one temporary file, which a single failure or a signal does not leave behind; failure means that a call failed, a signal came, or the product or the place is unacceptable; a failure preserves the destination exactly when there was no rename or the rename failed |
| Publish.FinishPreserves | src/aztec43-acc/execunix.c:433-446 | the destination is preserved if and only if the rename fails; a failure after a rename that worked is that of closing the product |
| Publish.ClosingFails | src/aztec43-acc/execunix.c:440-441 | a failure after which the destination is new |
| Launch.HostWordsExactly | src/aztec43-acc/execdos.c:281-308 | words can be handed to a tool exactly when each of them can, and on Unix they are handed on as they are |
| Launch.HostText | src/aztec43-acc/execdos.c:248-259 | the text of a response file, one word per CR LF line, with workspace names translated on DOS |
| Launch.ResponseFile | src/aztec43-acc/execunix.c:161-181 | the file holds the words behind the tool, or a call failed or a name is invalid |
| Launch.HostToolInBin | src/aztec43-acc/execdos.c:287-300 | the file to start is the one in the tool root's directory bin that has the last part of the planned path as its name |
| Launch.ResponseReadsBack | src/aztec43-acc/execunix.c:173-174 | cutting the file at CR LF gives back the arguments |
| Launch.CutIsWhole | src/aztec43-acc/plan.c:27-31 | all words are found in a cut tail exactly when the tail is not longer than what is left of it |
| Launch.CutIsPrefix | src/aztec43-acc/execdos.c:20-21 | what is found is what the first characters of the tail spell, but for a blank at their end |
| Launch.WordsGot | src/aztec43-acc/execdos.c:273-360 | the tools that were run got all words of their commands exactly when no tail was cut, and on Unix always |
| Launch.RunCommand | src/aztec43-acc/execdos.c:273-360 | the tool is run under its path in the tool root, with its words, on DOS as many as the tail of 126 bytes holds, and with its response file in place; status 0 means that it returned 0 and its product was found; any other status has a cause, among them a tool path or a workspace name that the host cannot take |
| Launch.RunCommands | src/aztec43-acc/execunix.c:503-517 | the commands run in order; complete only if every one returned 0 and left its product; else a failure, a signal or an unacceptable name |
| Execute.UnixChangesPrefix | src/aztec43-acc/execunix.c:518-523 | in every state the changed destinations are a prefix of the planned ones, complete, and no other existing file differs |
| Execute.DosChangesPrefix | src/aztec43-acc/execdos.c:590-595 | the same on DOS, where the last changed destination may be on its way with its old content whole |
| Execute.ContentOfProduct | src/aztec43-acc/execdos.c:226-233 | the content of a product is that of the workspace file it names |
| Execute.AreasReadBack | src/aztec43-acc/execunix.c:185-202 | cut at its semicolons the CLIB variable gives the library areas in order, each closed with a backslash |
| Execute.PublishUnix | src/aztec43-acc/execunix.c:518-523 | the publication loop passes only such states, and stops early only for a cause |
| Execute.PublishDos | src/aztec43-acc/execdos.c:590-595 | the publication loop passes only such states, and stops early only for a cause |
| Execute.ExecuteUnix | src/aztec43-acc/execunix.c:462-548 | for every script no host file changes unless all commands succeeded with all their words; status 0 means all published and the workspace gone or kept on request; a signal or a failed tool decides the status; no failure is passed over, and without a failure, a signal or a name, tool path or library list that is too long the status is 0; after a single failure the files are exactly those after some number of publications |
| Execute.ExecuteDos | src/aztec43-acc/execdos.c:537-605 | the same for DOS, where the tools got all their words exactly when no tail was cut, the tool root and the environment have limits of their own, and signals stop a run only before publication |
| DosPath.FoldedIsOrdinary | src/aztec43-acc/path.c:172-194 | a folded path has no empty, `.` or `..` component |
| DosPath.FoldingTwice | src/aztec43-acc/path.c:172-194 | folding is idempotent |
| DosPath.OrdinaryIsFixed | src/aztec43-acc/path.c:172-194 | a path of ordinary components is not changed |
| DosPath.ParentUndone | src/aztec43-acc/path.c:180-184 | `..` takes off the ordinary component before it, and does nothing at the root |
| DosPath.NothingEntered | src/aztec43-acc/path.c:185-190 | empty components and `.` do nothing |
| DosPath.Up | src/aztec43-acc/path.c:180-184 | the cursor moves back to the last separator, or to the root if there is none, which takes off one component |
| DosPath.Down | src/aztec43-acc/path.c:185-190 | appends a component behind a separator |
| DosPath.Fold | src/aztec43-acc/path.c:172-194 | the two cursors compute the stack normal form, and the write cursor never passes the read cursor |
| DosPath.PathCanonical | src/aztec43-acc/path.c:152-194 | drive, working directory and folding together |
| DosPath.CanonicalForms | src/aztec43-acc/path.c:152-171 | an absolute path is folded below the root of its drive, any other below the directory of its drive |
| DosPath.SourcePaths | src/aztec43-acc/path.c:152-194 | four paths and what DOS makes of them, `..` and `.` among their components |
| DosPath.CanonicalTwice | src/aztec43-acc/path.c:140-205 | a canonical path is its own canonical path, or too long at 1023 characters |
| DosPath.LongestIsRefused | src/aztec43-acc/path.c:140-205 | a canonical path of 1023 characters that is too long the second time |
| DosPath.CanonicalShape | src/aztec43-acc/path.c:140-205 | a canonical path begins with a drive and a backslash and has no slashes |
| DosPath.CanonicalEndsIn | src/aztec43-acc/path.c:152-194 | an ordinary last component stays the last |
| GuestPath.WithinIsBelow | src/aztec43-acc/path.c:250-264 | a path is within a root exactly when the root contains it, and root and rest rebuild it |
| GuestPath.LongestAnchorWins | src/aztec43-acc/path.c:299-312 | the longest anchor that contains the path is chosen, the tool root on ties; refusal means outside both |
| GuestPath.GuestUndone | src/aztec43-acc/path.c:299-317 | drive letter and guest path rebuild the host path |
| GuestPath.NativeGuest | src/aztec43-acc/path.c:295-297 | on DOS the guest path is the canonical path itself if it can be named exactly, and otherwise there is none |
| GuestPath.GuestsDiffer | src/aztec43-acc/path.c:295-317 | different host paths have different guest paths, on either host |
| GuestPath.GuestSamples | src/aztec43-acc/path.c:299-317 | files of the tool root are on drive D, those of the working directory on drive C, and others on none |
| GuestPath.AllowedChars | src/aztec43-acc/path.c:343-344 | the characters of a name, listed |
| GuestPath.DeviceNames | src/aztec43-acc/path.c:45-53 | the reserved names, listed |
| GuestPath.ComponentIsName | src/aztec43-acc/path.c:39-56 | the check on counts accepts exactly empty components and 8.3 names that are no device |
| GuestPath.ScanGuest | src/aztec43-acc/path.c:319-356 | the one-pass scan accepts exactly the paths of at most 63 characters whose components are all representable |
| GuestPath.ExactHasNoDots | src/aztec43-acc/path.c:345-350 | no accepted path has a `.` or `..` component |
| GuestPath.PathGuest | src/aztec43-acc/path.c:281-357 | on Unix anchor choice, conversion and check together; on DOS the copy and the check |
| GuestPath.ComparePaths | src/aztec43-acc/path.c:360-369 | names are equal exactly when they agree after case folding |
| GuestPath.Letters26 | src/aztec43-acc/path.c:360-369 | case folding maps the 26 letters to each other and changes nothing else |
| PrintPlan.QuotedBack | src/aztec43-acc/print.c:27-40 | a quoted word is read back exactly, in front of any text |
| PrintPlan.WordsBack | src/aztec43-acc/print.c:43-51 | a line of words is read back exactly |
| PrintPlan.CommandsBack | src/aztec43-acc/print.c:69-80 | all tool and response lines are read back, each response with its command |
| PrintPlan.PublishesBack | src/aztec43-acc/print.c:81-87 | all publications are read back |
| PrintPlan.TextBack | src/aztec43-acc/print.c:54-88 | a reader recovers settings, commands, responses and publications from the text |
| PrintPlan.TextIsUnambiguous | src/aztec43-acc/print.c:54-88 | plans that print alike have the same commands, response lines and publications |
| PrintPlan.HeaderLines | src/aztec43-acc/print.c:59-68 | the header, word for word |
| PrintPlan.PrintedLines | src/aztec43-acc/print.c:69-87 | the lines of a command, a response file and a publication, word for word |
| PrintPlan.EscapedSamples | src/aztec43-acc/print.c:27-40 | how a quote, a backslash, a tab and a plain character are written |
| PrintPlan.Stream.PutQuoted | src/aztec43-acc/print.c:27-40 | the character loop writes the escaped word |
| PrintPlan.Stream.PrintPlan | src/aztec43-acc/print.c:54-88 | the printer writes that text |
| PlanNames.TempNamesDiffer | src/aztec43-acc/plan.c:161-167 | temporary names with different numbers or suffixes differ |
| PlanNames.TempNameSample | src/aztec43-acc/plan.c:161-167 | two names, letter by letter |
| PlanParts.OutputsDiffer | src/aztec43-acc/plan.c:285-305 | outputs that may be published together differ as guest files and as host files |
| PlanParts.AddWordsExactly | src/aztec43-acc/words.c:52-66 | words are added one by one exactly when the whole list is short enough |
| Planner.Draft.NextTemp | src/aztec43-acc/plan.c:161-167 | the next number, up to 9999 |
| Planner.Draft.OutputPath | src/aztec43-acc/plan.c:269-306 | an output is registered exactly when it is no directory, DOS can name it, it is no input, and no output has its name |
| Planner.Draft.CompileInput | src/aztec43-acc/plan.c:633-717 | one command with the next temporary as product, an optional squeeze, and an object or an output; refused exactly when a part of them is not to be had |
| Planner.Draft.CompileInputs | src/aztec43-acc/plan.c:986-990 | one command for each source in input order, exactly when each can be compiled and its output published |
| Planner.Draft.CompiledInOrder | src/aztec43-acc/plan.c:986-990 | the j-th source has the j-th command, whose product is temporary number j |
| Planner.Draft.LinkOutputs | src/aztec43-acc/plan.c:803-820 | the output of ln and its `.dbg` and `.rsm` siblings are published, each with its own product |
| Planner.Draft.AddEntries | src/aztec43-acc/plan.c:860-885 | one linker word for every input in order, and the object index stays in range |
| Planner.Draft.LinkArguments | src/aztec43-acc/plan.c:827-902 | the words of the linker command in order, exactly when all files are there and the list is short enough |
| Planner.Draft.LinkInputs | src/aztec43-acc/plan.c:766-904 | the linker command and its outputs, with the exact condition |
| Planner.Draft.EntriesAreOwnProducts | src/aztec43-acc/plan.c:860-885 | at the place of a source the linker gets the product of that source's own command |
| Planner.Draft.PlanLinksInOrder | src/aztec43-acc/plan.c:756-903 | the linker words in order: tool, -o, product, overlay options, raw options, -g, startup, one word per input, overlay files, runtime; each optional part under its own condition |
| Planner.Draft.MeasureTail | src/aztec43-acc/plan.c:923-933 | the tail length, or a refusal exactly when an argument has a blank or control character |
| Planner.Draft.Serialise | src/aztec43-acc/plan.c:934-953 | a linker command becomes tool, `-f` and a response file; every tail has at most 126 bytes; the exact condition for it |
| Planner.Draft.SerialiseCommands | src/aztec43-acc/plan.c:914-956 | the same for all commands, with distinct new response names |
| Planner.Draft.MapLibraries | src/aztec43-acc/plan.c:980-985 | the guest paths of all library areas, exactly when they have them and make one list |
| Planner.Draft.BuildPlan | src/aztec43-acc/plan.c:963-1002 | a plan exactly when every part can be planned; its outputs may be published together, its commands are the drafted ones made ready to run |
| Planner.Draft.DraftedStaysInWorkspace | src/aztec43-acc/plan.c:157-167 | every product of a plan is an 8.3 name on the workspace drive |
| Planner.Draft.WorkspaceNamesDiffer | src/aztec43-acc/plan.c:157-167 | all workspace files of a plan have different names, whatever its stage: compiled products, linker product, siblings and response files |
| Planner.Draft.ProductsAreMade | src/aztec43-acc/plan.c:700-820 | every published product is the product of some command of the plan, or a `.dbg` or `.rsm` file beside it |
| PlanShapes.CompileCompiles | src/aztec43-acc/plan.c:633-705 | a compile command: cc.exe or as.exe, flags, raw options, macros, -D and -I words, and at its end -o, product, source |
| PlanShapes.PlanInPlaces | src/aztec43-acc/plan.c:986-992 | every word of a plan: for each source in input order its compile command and perhaps its squeeze command, then the linker command, and no other command |
| PlanFiles.KindBySuffix | src/aztec43-acc/plan.c:57-77 | the suffix of an input, in either case, decides its kind |
| PlanFiles.TargetBySuffix | src/aztec43-acc/plan.c:722-791 | the suffix of the output decides which targets, overlays and models are accepted |
| PlanFiles.OutputNamed | src/aztec43-acc/plan.c:708-717 | a source without -o goes to its base name with the suffix of what is made |
| PlanFiles.SiblingNamed | src/aztec43-acc/plan.c:308-328 | the files beside a program have its name with their own suffix |
| PlanFiles.StockOnUnix | src/aztec43-acc/plan.c:223-237 | stock files are files of the tool root's directory lib, and must be readable |
| PlanFiles.StockOnDos | src/aztec43-acc/plan.c:223-237 | the same on DOS |
| PlanFiles.LibraryIsFirst | src/aztec43-acc/plan.c:239-262 | a named library is the first one found in the library areas |
| PlanFiles.LibraryByName | src/aztec43-acc/plan.c:867-880 | -lm is the math library of the profile, the runtime is refused, and any other plain name is looked up |
| PlanFiles.AreasInOrder | src/aztec43-acc/plan.c:980-985 | the library areas are mapped in order, exactly when each has a guest path |
| PlanFiles.SourceIsPublished | src/aztec43-acc/plan.c:706-717 | without linking the j-th source has the j-th output, made from the j-th product |
| PlanFiles.ProgramIsPublished | src/aztec43-acc/plan.c:792-820 | a linked program and the files beside it, each with the product of the same number |
| PlanRuns.OutputsAreDistinct | src/aztec43-acc/plan.c:269-306 | a plan meets what the prefix theorems ask of its outputs |
| PlanWords.PlanIsKnown | src/aztec43-acc/plan.c:633-903 | where no flag or raw option begins with `E:\`, every word of a planned command on drive E is a workspace file of the plan, a host file that the request names, or a file of the installation |
| PlanWords.HostFileIsWord | src/aztec43-acc/plan.c:633-903 | and each of those host files is a word of some command |
| PlanRuns.WordOnE | src/aztec43-acc/execdos.c:304-324 | what DOS makes of a word: one in the root of drive E becomes a workspace path and one in a directory is refused; it stays as it is only if the workspace is that root |
| PlanRuns.SourcesOnE | src/aztec43-acc/execdos.c:226-233 | `E:\HELLO.C` is taken from the workspace, and `E:\SRC\X.C` is refused |
| PlanRuns.OnDriveEOnly | src/aztec43-acc/path.c:295-317 | the guest path of a host file is on drive E exactly on DOS for a file of drive E, and never on Unix |
| PlanRuns.DosToolsFit | src/aztec43-acc/execdos.c:287-299 | on DOS all tools of a plan have host paths exactly when there are no commands or the tool root has at most 50 characters |
| PlanRuns.PlanIsRunnable | src/aztec43-acc/execdos.c:281-324 | if the workspace leaves room for 8.3 names, all commands of a plan can be run if and only if the tools have host paths and, on DOS, no host file among their words lies in a directory of drive E or has a workspace path that is too long |
| PlanTails.TranslatedTail | src/aztec43-acc/plan.c:27-31 | the tail that a DOS tool gets is within 126 bytes exactly when the planned tail is after adding the growth of each word on drive E |
| PlanTails.LinkerTailFits | src/aztec43-acc/plan.c:941-953 | the tail of a linker command is never cut |
| PlanTails.CompiledWords | src/aztec43-acc/plan.c:633-717 | on DOS no compile command is taken for a linker command, and its words on drive E are its product, and its source if that lies there |
| PlanParts.ToolHasName | src/aztec43-acc/path.c:152-194 | on DOS the canonical path of a tool ends in the name of the tool |
| PlanTails.PlanIsUncut | src/aztec43-acc/execdos.c:281-328 | on DOS every tool of a plan gets all its words if and only if every compile command has room in its tail for its paths in the workspace |
| PlanTails.TailIsCut | src/aztec43-acc/execdos.c:304-327 | an accepted compile command whose tool does not get all its words |
| PlanRuns.ResponseGivesArguments | src/aztec43-acc/plan.c:923-953 | the response file of a serialised linker command gives back its original arguments |
| PlanRuns.LinkerReadsWords | src/aztec43-acc/execdos.c:236-347 | a linker is started with -f and the path of a file in the workspace whose lines are the planned words, each as the host has it |
| PlanTools.RunStartsTool | src/aztec43-acc/execdos.c:287-300 | the file that a run starts has the planned tool as its guest path, on DOS always and on Unix where no link is involved |
| Acc.PlanIsDelivered | src/aztec43-acc/execunix.c:518-523 | after all publications each requested output holds what was made for it, and no other file differs |
| Acc.PlanFitsUnix | src/aztec43-acc/execunix.c:462-548 | whether a plan can run on Unix at all, exactly: library list, tool paths, and directories of the outputs |
| Acc.PlanFitsDos | src/aztec43-acc/execdos.c:537-605 | whether a plan can run on DOS at all, exactly: library list, length of the tool root, no host file among the words in a directory of drive E or with a workspace path that is too long, and directories of the outputs |
| Acc.InvokeUnix | src/aztec43-acc/acc.c:76-83 | from request to files: a dry run or a refused request changes nothing, status 0 delivers every output, nothing is published unless each planned tool was started with all its words and returned 0, every state between has a complete prefix of the outputs, any other status is that of a failed call, a signal or a tool, or the plan fails the exact condition above, and a single failure or a signal leaves nothing but complete outputs |
| Acc.InvokeDos | src/aztec43-acc/acc.c:76-83 | the same for DOS hosts with DOS paths, up to one output on its way and one backup; the tools got all their words exactly when the compile commands have room for the workspace in their tails |

## Left out

- Reading and writing the object file, its name, and messages. Running out of memory.
- Record payloads as separately allocated buffers: pushing copies a payload, so a record is a value in the list.
- Payloads that end inside a subrecord, and LEDATA or SEGDEF payloads under 3 bytes: the C code reads past them, and `Readable` excludes them.
- Two-byte indexes, and the start address of MODEND.
- ObjFix.ConversionIsIdempotent: asks that targets can be made explicit and that no expanded record is too long; `SurvivesExactly` and `RewrittenReadsBack` show what is lost otherwise.
- HEXCOM's file names, its report and dump, and errors of writing the file. The image size is a parameter, because the program settles for less than 64K.
- PlanTools.RunStartsTool: on Unix for tool paths that resolving links does not change; with links the driver starts the file of that name in bin, whatever the link was to.
- Tools that change host files: a tool only changes the workspace. Names made by `mktemp` and `mkstemp` are taken to be no planned outputs.
- Atomicity across several outputs: a failed publication leaves the earlier ones published.
- Processes, signal delivery, and the DOS program segment prefix. Of the tools' environment the list of library areas and the limits on its paths are modelled; building the block is one call that may fail.
- What a tool does with a part of its words: like every tool run, it ends with a status and leaves files that the environment decides.
- The check that the parent of the workspace is not too long: it belongs to the call that makes the workspace, whose failure counts as that of a call.
- Recursive removal of the workspace: it is one call that may fail.
- `realpath`: on Unix planning asks an oracle for canonical paths. On DOS they are computed, and the oracles are the working directory of each drive and whether a path is a directory.
- Checks of the request before planning (`validate`, `.inp` lists, search areas), option parsing, the raw option table and the profile tables: their results are parameters of `Draft`.
- Planner.Draft.BuildPlan: linking an overlay to an output without a suffix is excluded, because the C code dereferences a null pointer there; so is a default executable without a suffix, which the profile tables do not have.
- Acc.InvokeUnix: the list of causes for a status other than 0 is stated for default executables ending in `.cmd` or `.exe`, as the profile tables have them, and a workspace path that leaves room for 8.3 names.
- Acc.InvokeDos: the same, and for flags, raw options and overlay addresses that do not begin with `E:\`.
- The words of a request in the header of a printed plan are names without blanks, as its tables have them.
