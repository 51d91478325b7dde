# k85OS: verified models

k85OS is ESP-IDF firmware for a handheld. This project models, in Dafny, the parts of it whose meaning does not
depend on hardware, and proves what they are for. Code that works in place on buffers, arrays and global variables is
modelled by classes and methods with loops (`LineEditor`, `AudioTasks`, `TarTool`, `FirmwareInstaller`, `FlashStream`,
`FtpResolver`, `FtpServer`, `SvcStore`, `CronParser`, `ShellTokenizer`, `ShellPipeline`, `Totp`, `DnsFilter`, `Vault`, `ConfigTree`, ...); each
method is proved equal to a function, and the properties are proved about these functions.

| part | files |
|---|---|
| line editor: a zipper, its history and completion, and a terminal that must mirror it | `LineEdit`, `LineEditor`, `LineMirror`, `LineSession`, `LineHistory`, `LineComplete`, `LineKeys`, `LineTab`, `Terminal` |
| audio ring of the radio client: three parties, any interleaving | `RingControl`, `AudioRing`, `AudioTasks` |
| tar writer and reader | `TarFormat`, `TarArchive`, `TarTool` |
| shell front end: tokenizer, pipes, redirects, `tail` | `ShellWords`, `ShellTokenizer`, `ShellPipe`, `ShellPipeline`, `ShellMeaning`, `ShellTail` |
| one-shot jobs and the cron task: tasks that retire themselves | `AtJobs`, `CronTask` |
| crontab: grammar, masks, matching, the job table | `CronText`, `CronJob`, `CronParser`, `CronTable`, `CronMeaning` |
| firmware: flash stream and third-party install | `FlashStream`, `FirmwareInstall`, `FirmwareInstaller`, `FirmwareTable` |
| FTP: path resolution, sessions and what holds over whole runs | `FtpPath`, `FtpResolver`, `FsGuard`, `FtpSession`, `FtpCommands`, `FtpHistory`, `FtpServer` |
| settings file as a map | `SvcConfig`, `SvcStore` |
| DNS filter of the hotspot | `DnsName`, `DnsFilter` |
| one-time codes | `Base32`, `Totp` |
| password vault, encrypted settings, merge of defaults | `Vault`, `Secrets`, `ConfigMerge`, `ConfigTree` |
| shared | `CText`, `CScan`, `CBuffer`, `Options`, `Division` |

What is outside the code becomes a parameter: the clock, what the file system or the flash driver answers, listings of
directories, ciphers and hashes, the result of a password check, whether memory or a task can be had. Concurrent parts
are machines whose steps are the lock sections (or, for the ring, the single accesses to the shared variables), taken
in any order. Texts are sequences of characters without NUL, as C strings are.

Where the code does something other than its comments or a reader might expect, the model follows the code:

- Replacing a word tests the length of a copy that was already cut to 159 bytes, so at the end of a line a candidate
  that does not fit is cut instead of refused (`LineComplete.ReplaceWordCuts`, `LineComplete.TabCutsName`).
- Output that does not end its row leaves the prompt beside it, and replies do not match the row until the next redraw
  (`LineSession.FinishedMirrorsIff`, `LineSession.UnendedOutputShifts`); so does Ctrl-C above a row that is not blank
  (`LineSession.CancelMirrorsIff`).
- A history line of 160 bytes or more is stored cut and compared uncut, so it can repeat (`LineHistory.AddRepeats`).
- On an empty word Tab offers only the first 32 of the 49 commands; on any other word it offers all that match
  (`LineComplete.OffersAllUnlessEmpty`).
- A set that does not fit the settings file still removes the old value (`SvcConfig.GetAfterSet`,
  `SvcConfig.OldValueLost`); a failed rename loses the file (`SvcConfig.OtherKeysStay`, `SvcConfig.OtherValueLost`).
- When the image check fails after an accepted signature, the slot header is not erased
  (`FlashStream.FailedCheckKeepsHeader`); an end leaves it exactly when it was given an accepted signature
  (`FlashStream.ClosingErases`).
- A verified end does not notice bytes that a refused write has left in the slot
  (`FlashStream.RefusedBytesGoUnnoticed`); without such bytes the slot is what was signed (`FlashStream.RunMeaning`).
- A comment in the vault speaks of 64 bytes; passwords up to 79 bytes are accepted (`Vault.AddsUpTo79`).
- A failed unlock of an open vault leaves it open (`Vault.UnlockLeavesOpen`).
- `at` drops a due job if, and only if, its worker could not get an output buffer when it started
  (`AtJobs.LostIff`, `AtJobs.JobLostWithoutBuffer`).
- Cron can run a minute's jobs twice when the clock is set back past another minute, or by a restart within a minute
  (`CronTask.EachMinuteOnceIff`, `CronTask.MinuteTwiceOtherwise`).
- The DNS filter sees at most 129 characters of a name, so a rule can miss a longer one
  (`DnsFilter.HitsByLabels`, `DnsFilter.LongNameMissesRule`).

## Model

| member | source | states |
|---|---|---|
| `LineSession.RunsMirror` | main/core/line_edit.cpp:131-378 | over any run of bytes, remembered lines and command outputs that leave no control sequence pending, the line fits its buffer and history positions stay in range; and the row shows prompt and line with the cursor in place from every redraw and every prompt on a fresh row on, until a prompt is printed elsewhere |
| `LineSession.ReplyAgreesWithRedraw` | main/core/line_edit.cpp:131-141 | the incremental reply to a byte leaves every cell and the cursor column exactly as redrawing the whole line would |
| `LineSession.FreshSessionMirrored` | main/core/line_edit.cpp:224-236 | a printed prompt and an empty line start a mirrored session |
| `LineSession.AfterKeepsMirrored` | main/core/line_edit.cpp:284-378 | a mirrored session stays mirrored at every event, whatever the listing Tab finds, except exactly when a new prompt is not on a fresh row; an event that redraws or prompts on a fresh row restores the mirror from any state |
| `LineSession.FinishedMirrorsIff` | main/core/line_edit.cpp:317-324 | after a finished line, its output and the prompt, the screen mirrors the empty line if and only if the output left the cursor at the left of a row that is blank beyond the prompt |
| `LineSession.CancelMirrorsIff` | main/core/line_edit.cpp:356-360 | after Ctrl-C the screen mirrors the empty line if and only if the next row was blank beyond the prompt |
| `LineSession.EndedRowsMirror` | main/core/line_edit.cpp:284-378 | if every output ends its last row, a session once mirrored above blank rows always is |
| `LineSession.UnendedOutputShifts` | main/core/line_edit.cpp:317-340 | an input: after Enter and the output "x" the screen no longer mirrors the line, after Ctrl-A it does again |
| `LineMirror.FeedMirrors` | main/core/line_edit.cpp:284-378 | for every byte in every state the bytes emitted make a mirroring terminal mirror the new line; after Enter, Ctrl-C or Ctrl-D they leave it on the next row, a fresh one if the rows below were blank |
| `LineMirror.FeedPlain` | main/core/line_edit.cpp:284-378 | every reply is text, one cursor step, or ends in a redraw, so none leaves a control sequence pending |
| `LineMirror.RedrawMirrors` | main/core/line_edit.cpp:131-141 | from any place on the row, a redraw shows prompt and line, blank beyond, and the cursor in place |
| `LineMirror.RedrawRestores` | main/core/line_edit.cpp:131-141 | a reply that ends in a redraw makes any idle terminal mirror the line |
| `LineMirror.InsertMirrors` | main/core/line_edit.cpp:368-377 | plain echo at the end of the line, and a redraw elsewhere, both show the inserted character |
| `LineMirror.BackspaceMirrors` | main/core/line_edit.cpp:326-334 | `\b \b` at the end of the line, and a redraw elsewhere, both show the line without the character |
| `LineMirror.TabMirrors` | main/core/line_edit.cpp:158-221 | a bell, a redraw or a table of candidates followed by a redraw: in each case the row shows the line as completion left it |
| `Terminal.RunCursorBack` | main/core/line_edit.cpp:131-141 | a printed cursor-back sequence (ECMA-48, section 8.3.18) with a decimal argument moves the cursor back by exactly that number of columns |
| `Terminal.RunConcat` | main/core/line_edit.cpp:22-30 | output appended piece by piece acts on the terminal like the pieces one after another |
| `LineEdit.FeedKeepsWf` | main/core/line_edit.cpp:284-378 | every byte keeps the line below 160 bytes without a NUL and the history position between -1 and the newest index |
| `LineEdit.CommandsFit` | main/core/line_edit.cpp:63-80 | every built-in command fits a candidate slot and is printable |
| `LineHistory.HistoryIsNewest` | main/core/line_edit.cpp:44-53 | the history is the newest 20 lines of everything that was worth remembering, newest first |
| `LineHistory.AddRepeats` | main/core/line_edit.cpp:44-53 | adding a line makes two neighbours equal if and only if the line is at least 160 bytes long, no password command, and its stored part repeats the newest entry |
| `LineHistory.LongLineRepeats` | main/core/line_edit.cpp:44-53 | such a line: 160 times one character, entered twice, is stored twice |
| `LineHistory.NeverRepeats` | main/core/line_edit.cpp:44-53 | lines under 160 bytes never produce adjacent duplicates |
| `LineHistory.NeverKeepsPasswords` | main/core/line_edit.cpp:44-53 | no line starting with the password command is ever kept, and none outgrows its slot |
| `LineHistory.UpsShow` | main/core/line_edit.cpp:244-250 | k Ups show the k-th older line, stopping at the oldest, byte by byte through the escape states |
| `LineHistory.DownsShow` | main/core/line_edit.cpp:252-258 | k Downs come k lines forward, stopping at the line being typed |
| `LineHistory.UpsThenDownsRestore` | main/core/line_edit.cpp:238-258 | any number of Ups followed by as many Downs restores the text being typed |
| `LineComplete.CommonPrefixIsLongest` | main/core/line_edit.cpp:158-221 | what completion inserts is common to all candidates, and nothing longer is |
| `LineComplete.TabExtendsCommand` | main/core/line_edit.cpp:158-221 | whenever the completed line fits, completing a command keeps everything around the word, keeps what was typed of it, and goes exactly as far as the offered commands agree |
| `LineComplete.TabExtendsFile` | main/core/line_edit.cpp:82-221 | the same for file names, from the entries of the directory to the line: leading slashes are dropped and the rest of the word is kept, or the word stays as it is when the names found agree no further |
| `LineComplete.FilesStartWithWord` | main/core/line_edit.cpp:82-127 | every name found in a directory starts with the word without its leading slashes |
| `LineComplete.ListingIsWf` | main/core/line_edit.cpp:82-127 | what is found, in whatever order, fits the candidate slots |
| `LineComplete.OffersAllIff` | main/core/line_edit.cpp:73-80 | Tab offers the first 32 of the commands that start with the word; these are all of them if and only if at most 32 do, and then exactly the commands that start with the word are offered |
| `LineComplete.OffersAllUnlessEmpty` | main/core/line_edit.cpp:63-80 | every command that starts with the word is offered if and only if the word is not empty: the empty word matches all 49 and gets the first 32 |
| `LineComplete.ReplaceWordCuts` | main/core/line_edit.cpp:144-156 | a replacement is made in full or not at all if and only if it does not overfill a line that ends at the cursor; there the word is cut at 159 bytes, because the copy the length test looks at was already cut |
| `LineComplete.TabCutsName` | main/core/line_edit.cpp:144-186 | such a line, typed: 150 characters, a blank and an "n", where Tab finds the one name "notes-8.2.md" and puts "notes-8." there |
| `LineTab.WordMeans` | main/core/line_edit.cpp:158-166 | the word Tab completes begins behind the last blank, bar or angle bracket before the cursor |
| `LineTab.CommandMeans` | main/core/line_edit.cpp:168-172 | it is completed as a command if and only if nothing but blanks is before it on the line, or between it and a bar |
| `LineTab.LongWordsBeep` | main/core/line_edit.cpp:161-163 | a word from 96 characters on is only beeped at |
| `LineTab.FoundMeans` | main/core/line_edit.cpp:82-127 | for a file word made of slashes, a directory and the beginning of a name: what is found are paths of entries the directory shows, all of them below 32, and none behind two dots; a name is shown if it starts that way, has no blank, is not blocked, fits, and is not hidden unless asked for by its dot |
| `LineEditor.LineEditor.Feed` | main/core/line_edit.cpp:284-378 | the code over the 160-byte array and the bounded output buffer does to line, states and history position what the zipper says, and emits its reply cut to the buffer |
| `LineEditor.LineEditor.DoTab` | main/core/line_edit.cpp:158-221 | completion in place equals completion of the zipper for any candidate list |
| `LineEditor.LineEditor.ReplaceWord` | main/core/line_edit.cpp:144-156 | rebuilding the line around the cursor in place, including the case that does not fit |
| `LineEditor.LineEditor.EraseRange` | main/core/line_edit.cpp:260-264 | moving the tail down removes exactly the range and moves the cursor to its start |
| `LineEditor.LineEditor.InsertChar` | main/core/line_edit.cpp:368-377 | moving the tail up and storing the byte inserts it at the cursor |
| `LineEditor.LineEditor.PressKey` | main/core/line_edit.cpp:314-377 | every key outside escape sequences, against the zipper's meaning of the key |
| `LineKeys.EditingKeyMeans` | main/core/line_edit.cpp:326-346 | for the line as a text with a cursor in it: Ctrl-A and Ctrl-E move to its ends, Ctrl-U leaves what is behind the cursor, Ctrl-K what is before it, Backspace takes the character before it |
| `LineKeys.ControlKeyMeans` | main/core/line_edit.cpp:317-364 | Ctrl-D takes the character at the cursor, Ctrl-C leaves no text; Enter, Ctrl-L and Escape change neither text nor cursor |
| `LineKeys.InsertMeans` | main/core/line_edit.cpp:366-377 | any other byte but Tab and Ctrl-W is inserted before the cursor if it is printable and the line has room, and changes nothing otherwise |
| `LineKeys.EraseWordMeans` | main/core/line_edit.cpp:348-354 | Ctrl-W takes exactly the last word before the cursor and the blanks behind it |
| `LineKeys.EditLeavesHistory` | main/core/line_edit.cpp:260-377 | a key that changes the text leaves the history; Enter and Ctrl-C leave it in any case, and no other key does |
| `LineKeys.ActionMeans` | main/core/line_edit.cpp:314-366 | the caller is given a line exactly at Enter, once for a CR LF pair, the end of input exactly at Ctrl-D on an empty line, and a dropped line exactly at Ctrl-C |
| `LineKeys.EscapeMeans` | main/core/line_edit.cpp:287-312 | how the bytes of a control sequence are read, its decimal argument, and that any other byte ends it |
| `LineKeys.FinalMeans` | main/core/line_edit.cpp:260-312 | the left and right arrows, Home, End and Delete in all their spellings: the text and the cursor after them |
| `LineEditor.LineEditor.HistoryUp` | main/core/line_edit.cpp:244-250 | saves the typed line on leaving it and loads the older one |
| `LineEditor.LineEditor.HistoryDown` | main/core/line_edit.cpp:252-258 | loads the newer line, or the saved one at the end |
| `LineEditor.LineEditor.Redraw` | main/core/line_edit.cpp:131-141 | the bytes put out are those of the specified redraw |
| `LineEditor.History.Add` | main/core/line_edit.cpp:44-53 | shifting the slots and storing the cut line equals prepending and dropping the oldest |
| `LineEditor.Obuf.PutN` | main/core/line_edit.cpp:22-30 | output is everything put so far, cut to the buffer's capacity less one |
| `LineEditor.MeasureCommonPrefix` | main/core/line_edit.cpp:158-221 | the nested loops over candidates compute the specified common prefix |
| `AudioRing.NextKeepsInv` | main/net/kiwisdr_client.cpp:188-434 | every possible step of producer, consumer or speaker, in any interleaving, keeps the ring invariant |
| `AudioRing.HeardIsPrefixOfAccepted` | main/net/kiwisdr_client.cpp:209-231 | in every reachable ring what was heard is the beginning of what was accepted, each sample three times as loud and cut to 16 bits: nothing lost, repeated, reordered or overwritten |
| `AudioRing.AcceptedGrows` | main/net/kiwisdr_client.cpp:209-231 | only the producer's store adds to the accepted samples, and exactly its own sample |
| `AudioRing.HeldBuffersStay` | main/net/kiwisdr_client.cpp:398-415 | no step changes a buffer the speaker still holds |
| `AudioRing.RingShape` | main/net/kiwisdr_client.cpp:398-415 | from the oldest queued buffer on, the states are the queued ones playing, then the ready ones, then free ones; filling goes on right behind; the queue holds at most two |
| `AudioRing.DropsBetweenBuffers` | main/net/kiwisdr_client.cpp:221-224 | a frame is cut short if and only if all eight buffers are in use, and then at fill position 0 |
| `RingControl.ProduceKeepsInv` | main/net/kiwisdr_client.cpp:209-231 | the producer's check, store, publish and advance keep the control invariant |
| `RingControl.ConsumeKeepsInv` | main/net/kiwisdr_client.cpp:398-415 | the consumer's poll, release, count, prime, test, amplify, hand over and mark keep the control invariant |
| `RingControl.FinishKeepsInv` | main/net/kiwisdr_client.cpp:398-400 | the speaker finishing its oldest buffer at any moment keeps the control invariant |
| `AudioTasks.Globals.HandleAudioFrame` | main/net/kiwisdr_client.cpp:188-232 | the frame loop over the global variables makes a run of the machine's producer steps; the frame's samples are accepted in order up to the first buffer still in use |
| `AudioTasks.FrameSamplesBack` | main/net/kiwisdr_client.cpp:188-224 | for every sequence of samples printed high byte first behind any header, the samples of the frame are exactly these |
| `AudioTasks.NoSamples` | main/net/kiwisdr_client.cpp:188-207 | a frame with another tag or of at most ten bytes has none |
| `AudioTasks.Globals.PlaybackRound` | main/net/kiwisdr_client.cpp:398-415 | one round of the playback block, from one poll to before the next, makes a run of the machine's consumer steps, only adds to what the speaker holds, and leaves nothing ready that could have been handed over; playback is primed when three buffers are ready, and no more once it has run dry |
| `TarArchive.ListingOfArchive` | main/core/shell_ext.cpp:925-948 | listing a written archive gives exactly its entries in order, if and only if no file is above 64 MiB; otherwise the entries before the first such file and an error |
| `TarArchive.ExtractionOfArchive` | main/core/shell_ext.cpp:925-982 | extracting a written archive on a device with room makes every directory and writes every file with its contents, in order, except the names the reader refuses |
| `TarArchive.ArchiveAligned` | main/core/shell_ext.cpp:808-825 | headers and padded data fill whole 512-byte blocks, so every record starts on a block boundary |
| `TarArchive.ScanRecord` | main/core/shell_ext.cpp:925-941 | the reader finds a written record whatever surrounds it, and where the next one starts |
| `TarArchive.ArchiveFollows` | main/core/shell_ext.cpp:925-941 | in a written archive the reader finds the entries one behind the other, each with its data behind its header, up to the end |
| `TarArchive.DirHeaderHasSlash` | main/core/shell_ext.cpp:837-841 | a directory's name stands in its header with a slash at its end, if there is room |
| `TarArchive.DecideMeans` | main/core/shell_ext.cpp:852-982 | an entry is skipped if and only if its name could lead out of the target, its path is blocked, or it is of another kind; otherwise it is made, or written with exactly its data, or ends the extraction |
| `TarArchive.ExtractionIsSafe` | main/core/shell_ext.cpp:852-982 | whatever bytes an archive consists of, everything made or written by extracting it lies below the target, has no two dots in its path, is not blocked, and has contents found in the archive |
| `TarFormat.HeaderReads` | main/core/shell_ext.cpp:785-804 | a written header is never all zero, its checksum is accepted, and name, size and type read back (POSIX.1-2017, pax utility, ustar Interchange Format) |
| `TarFormat.HeaderFields` | main/core/shell_ext.cpp:785-804 | the other fields of the interchange format at their places: mode 0755 for directories and 0644 for files, owner and group 0, the time, no link name, magic and version |
| `TarFormat.HeaderSum` | main/core/shell_ext.cpp:794-802 | the checksum field holds the sum of the header with that field taken as eight blanks |
| `TarFormat.ParseOfField` | main/core/shell_ext.cpp:783-866 | parsing a printed octal field gives the number back for every number that fits the field |
| `TarFormat.CheckSumAccepted` | main/core/shell_ext.cpp:797-803 | the sum of any header fits six octal digits and the stored one equals the computed one |
| `TarFormat.PaddedIsRounded` | main/core/shell_ext.cpp:814-824 | the padded size is the size rounded up to whole blocks, as the reader computes it |
| `TarTool.FillHeader` | main/core/shell_ext.cpp:785-804 | the 512-byte array filled field by field, with the checksum summed over blanks first, is the specified header |
| `TarTool.WriteHeader` | main/core/shell_ext.cpp:785-804 | appends exactly the header, or fails when there is no room |
| `TarTool.WriteBlocks` | main/core/shell_ext.cpp:808-825 | appends the data in blocks, the last one padded with zeros; fails on a short source or a full disk |
| `TarTool.Create` | main/core/shell_ext.cpp:808-906 | over everything the writer is offered: succeeds if and only if no file has become shorter, there was memory, nothing that counts comes after 200 entries and the archive fits the disk; then it wrote exactly the archive of the readable ones, in order |
| `TarTool.AllDoneMeans` | main/core/shell_ext.cpp:835-836 | the count kept along the way stops the writer exactly when something that counts comes after 200 entries |
| `TarTool.ReadOctal` | main/core/shell_ext.cpp:862-866 | the parsing loop with 32-bit wrap equals the specified value for any bytes |
| `TarTool.SumHeader` | main/core/shell_ext.cpp:930-931 | the checksum loop, the checksum field counted as blanks |
| `TarTool.List` | main/core/shell_ext.cpp:925-948 | the reading loop terminates on arbitrary bytes and returns the specified listing |
| `TarTool.Extract` | main/core/shell_ext.cpp:925-982 | the extraction loop terminates on arbitrary bytes and takes exactly the specified actions; a directory does not skip data blocks here, unlike in a listing |
| `TarTool.CopyOut` | main/core/shell_ext.cpp:967-974 | copies the contents block by block, the last one partly, or reports a short file |
| `ShellWords.WrittenArgsComeBack` | main/core/shell_ext.cpp:79-101 | arguments without single quotes, empty ones included, written in single quotes and joined by blanks, are read back unchanged if and only if table and buffer can hold them |
| `ShellWords.TokensAreArgs` | main/core/shell_ext.cpp:79-101 | for every line the bounded tokenizer returns all arguments unharmed if and only if they fit |
| `ShellTokenizer.Tokenize` | main/core/shell_ext.cpp:79-101 | for every line every write is in bounds and the argument table points at exactly the specified arguments, laid out without overlap |
| `ShellTokenizer.CopyArg` | main/core/shell_ext.cpp:87-99 | one argument is copied with quotes removed and terminated; what was laid out before is untouched |
| `ShellMeaning.ArgsOfLine` | main/core/shell_ext.cpp:79-101 | however words are written, in bare, single-quoted and double-quoted pieces, and however they are spaced, the arguments are the texts the pieces mean |
| `ShellMeaning.QuotesHide` | main/core/shell_ext.cpp:1037-1069 | a bar or a redirect counts if and only if it stands outside quotes of either kind |
| `ShellPipe.StagesAreIn` | main/core/shell_ext.cpp:1033-1047 | the stages contain no unquoted bar, all but the last have closed quotes, and joined by bars they are the line |
| `ShellPipe.StagesAreAll` | main/core/shell_ext.cpp:1033-1047 | no other list of such pieces makes up the line |
| `ShellPipe.RunStages` | main/core/shell_ext.cpp:1078-1091 | running the stages over the alternating buffers, where a target is cleared before its stage runs, equals left-to-right composition; target and input are never the same buffer |
| `ShellPipeline.HasUnquotedLoop` | main/core/shell_ext.cpp:103-111 | the scan finds the character if and only if it occurs outside quotes |
| `ShellPipeline.CutStages` | main/core/shell_ext.cpp:1033-1047 | cutting the copy in place yields exactly the stages and fails if and only if there are more than six |
| `ShellPipeline.CheckStages` | main/core/shell_ext.cpp:1049-1074 | the first complaint in the order of the checks: empty command, early redirect, bad file name |
| `ShellPipeline.Pipeline` | main/core/shell_ext.cpp:1028-1115 | for every line the whole front end does to the world and the output what the line's stages, redirect and complaints prescribe |
| `ShellMeaning.PlainOutcome` | main/core/shell_ext.cpp:1026-1027 | a line without bars and redirects outside quotes is run as it is |
| `ShellMeaning.RedirectOutcome` | main/core/shell_ext.cpp:1051-1111 | the output of a command with one redirect goes, without returns, to the file named behind it: `>` replaces the file and `>>` appends to it |
| `ShellMeaning.NoReturnsMeans` | main/core/shell_ext.cpp:1093-1111 | what is stored is the output without its returns, and nothing else is taken out |
| `ShellMeaning.PipeOutcome` | main/core/shell_ext.cpp:1078-1091 | of two commands with a bar between them the second reads what the first has put out, and its output is the line's |
| `ShellMeaning.Complaints` | main/core/shell_ext.cpp:1033-1074 | which lines are refused and in which words: more than six commands, an empty one, a redirect before the last one |
| `ShellMeaning.BadFileComplaint` | main/core/shell_ext.cpp:1060-1074 | what is behind a redirect must be one name, or the line is refused |
| `ShellTail.Tail` | main/core/shell_ext.cpp:269-288 | the ring of n slots returns exactly the last n lines in order, n clamped to 1..50 and lines cut at 159 bytes |
| `AtJobs.NoJobOrphaned` | main/core/shell_ext.cpp:695-778 | over all interleavings of the lock sections, a job in the table implies exactly one live worker task, the one in `s_at_task` |
| `AtJobs.ExecutedAtMostOnce` | main/core/shell_ext.cpp:695-778 | each job is executed at most once, with its own command, not before it is due, and is then no longer in the table |
| `AtJobs.EveryJobAccountedFor` | main/core/shell_ext.cpp:695-778 | every id given out is waiting in the table with a live worker, or in its hands, or was refused by an add that could start no task, deleted by its number, executed by a worker with a buffer or dropped by one without; and it is each of these if and only if that step happened |
| `AtJobs.SettledByEvent` | main/core/shell_ext.cpp:695-778 | a job's fate is settled in one of these four ways if and only if the step that does so is in the run |
| `AtJobs.LostIff` | main/core/shell_ext.cpp:695-718 | a job that was taken and is out of its worker's hands is lost if and only if that worker has no buffer, and executed if and only if it has one |
| `AtJobs.AnyLostIff` | main/core/shell_ext.cpp:695-718 | jobs are lost in a run if and only if a worker without a buffer got as far as dropping one |
| `AtJobs.JobLostWithoutBuffer` | main/core/shell_ext.cpp:695-718 | such runs: any job, once due, taken by a worker that was created but got no buffer |
| `AtJobs.FateIsFinal` | main/core/shell_ext.cpp:695-778 | what has become of a job never changes again; a deleted, refused or lost one is never executed |
| `AtJobs.Queue.Add` | main/core/shell_ext.cpp:760-777 | the scan for a free slot and the start of a worker with its undo, as one step of the machine |
| `AtJobs.Queue.Delete` | main/core/shell_ext.cpp:739-747 | removes the job with the id if and only if it is in the table |
| `AtJobs.Queue.Take` | main/core/shell_ext.cpp:701-712 | takes the first due job out of the table |
| `AtJobs.Queue.Execute` | main/core/shell_ext.cpp:713 | runs the command taken if the worker got its buffer when it started |
| `AtJobs.Queue.Look` | main/core/shell_ext.cpp:714-717 | retires if and only if no job is left |
| `FlashStream.RunMeaning` | main/net/firmware_flash.cpp:35-112 | over every sequence of calls: until a begin opens a stream nothing changes; after that the stream is active exactly while one is open, the digest covers exactly the accepted writes, and the slot holds exactly them if and only if no refused write left bytes there |
| `FlashStream.VerifiedEndMeansSigned` | main/net/firmware_flash.cpp:72-95 | a verified end returns true if and only if the stream is open, the signature is accepted for the digest of exactly the accepted writes and the image check passes |
| `FlashStream.OthersReturn` | main/net/firmware_flash.cpp:35-112 | over every sequence of calls a begin returns true if and only if no stream is open, a slot is found and the write can start, a write if and only if a stream is open and flash takes it, and an end without a signature never |
| `FlashStream.ClosingErases` | main/net/firmware_flash.cpp:72-112 | an open stream is closed by an end or an abort and nothing else, and its header is then erased unless, and only unless, a verified end was given an accepted signature, whatever the image check says |
| `FlashStream.FailedCheckKeepsHeader` | main/net/firmware_flash.cpp:88-93 | such a call: with an accepted signature and a failed image check the end returns false and the header stays |
| `FlashStream.SurvivingSlotIsSigned` | main/net/firmware_flash.cpp:35-112 | whatever the calls were and whatever the slot held before: once a begin has opened a stream, the header of a closed slot survives if and only if some verified end was given a signature accepted for the digest of exactly the bytes accepted since the last begin and no stream has been opened since; before that the slot is as it was found, with no signature to vouch for it |
| `FlashStream.RefusedBytesGoUnnoticed` | main/net/firmware_flash.cpp:61-95 | such a run: after a refused write that left a byte, a verified end returns true on a slot that holds more than was signed |
| `FlashStream.Flash.StreamBegin` | main/net/firmware_flash.cpp:39-59 | opens the stream only if none is open, a slot is found and the write can start |
| `FlashStream.Flash.StreamWrite` | main/net/firmware_flash.cpp:61-70 | accepted bytes go to slot and digest; a refused write may leave some of its bytes in the slot |
| `FlashStream.Flash.StreamEndVerified` | main/net/firmware_flash.cpp:72-95 | every ending of a verified end, in the order of the checks |
| `FlashStream.Flash.StreamEnd` | main/net/firmware_flash.cpp:97-105 | an end without a signature closes an open stream, erases the header and never returns true |
| `FlashStream.Flash.StreamAbort` | main/net/firmware_flash.cpp:107-112 | an open stream is closed and the header erased; a closed one is left alone |
| `FirmwareInstall.InstalledIsWindow` | main/net/firmware_flash.cpp:332-387 | an installed slot is exactly file[start..min(limit, size)], at most the slot's size, starts with 0xE9, and the digest covers the whole file |
| `FirmwareInstall.VerdictStays` | main/net/firmware_flash.cpp:373-387 | once the head is complete, a failure is the verdict on every longer file |
| `FirmwareInstall.RejectedLeavesBeginning` | main/net/firmware_flash.cpp:319-330 | what a rejected file leaves in an opened slot is a beginning of its window and fits the slot |
| `FirmwareInstall.LimitMattersNot` | main/net/firmware_flash.cpp:319-330 | the outcome on any flash is that on one which takes whatever fits the slot if and only if no write was refused |
| `FirmwareInstall.TakesAllMeans` | main/net/firmware_flash.cpp:319-330 | the driver took each piece when exactly those before it were in the slot |
| `FirmwareTable.AppDecides` | main/net/firmware_flash.cpp:332-352 | for every partition table printed at 0x8000 whose first application entry is its last: the window begins at that entry's offset and is as long as the entry says, cut at 2^32 - 1 and at the slot's size |
| `FirmwareTable.InstalledIsApp` | main/net/firmware_flash.cpp:332-387 | of such an image an installed slot is exactly that partition, as far as the slot takes it and the file has it |
| `FirmwareTable.NoAppIsRejected` | main/net/firmware_flash.cpp:332-352 | a table that ends before an application is rejected for that, and the slot is not touched |
| `FirmwareTable.PlainDecides` | main/net/firmware_flash.cpp:352-357 | a file without a table is taken from its beginning, and refused if it was announced with more than the slot's size |
| `FirmwareTable.InstalledIff` | main/net/firmware_flash.cpp:332-451 | a file is installed if and only if it came in whole with status 200, has a window that the flash takes, and what is in it starts with 0xE9 and passes the image check |
| `FirmwareTable.RejectedFor` | main/net/firmware_flash.cpp:437-456 | for a file with nothing wrong until its end, which of the endings is reported |
| `FirmwareInstaller.Install` | main/net/firmware_flash.cpp:405-468 | for every way of cutting a file below 4 GiB into chunks, the outcome and the slot's bytes are those of the whole file on a flash that takes whatever fits the slot, if and only if the driver refused none of the writes; what was written are pieces of the file's window one behind the other, each taken by the driver, and a refused one whose beginning is left in the slot; a slot that was opened in vain is closed with its header erased, one that was not is as before |
| `FirmwareInstaller.GoodFlashIsIdeal` | main/net/firmware_flash.cpp:405-468 | so on a driver that takes whatever fits the slot the outcome depends on the file alone, however it was cut |
| `FirmwareInstaller.Download` | main/net/firmware_flash.cpp:389-402 | only what comes in answers with status 200 is fed, and nothing after a failure |
| `FirmwareInstaller.Installer.TpFeed` | main/net/firmware_flash.cpp:373-387 | head filling, decision, replay and streaming of one chunk, against the meaning of all bytes fed so far |
| `FirmwareInstaller.Installer.TpDecide` | main/net/firmware_flash.cpp:332-371 | the decision opens the specified window of the file, or fails for the specified reason, with no 32-bit wrap in start or limit |
| `FirmwareInstaller.Installer.Replay` | main/net/firmware_flash.cpp:362-370 | replaying the head in 512-byte pieces equals streaming it whole |
| `FirmwareInstaller.Installer.StreamPiece` | main/net/firmware_flash.cpp:319-330 | clipping a piece to the window extends what was streamed by exactly the piece's part of the window |
| `FirmwareInstaller.Conclude` | main/net/firmware_flash.cpp:430-468 | the endings after the download, in the order of the checks |
| `FtpPath.ResolveCanonical` | main/net/ftp_server.cpp:131-172 | a resolved path has no empty, dot or dot-dot part, only legal characters, at most 16 parts, and fits |
| `FtpPath.ResolveIdempotent` | main/net/ftp_server.cpp:131-172 | a resolved path resolves to itself from any directory |
| `FtpPath.ResolveComposes` | main/net/ftp_server.cpp:131-172 | resolving a and then b from there is resolving a/b, for non-empty a and relative b, while everything fits |
| `FtpPath.PartsJoin` | main/net/ftp_server.cpp:131-172 | the parts of a/b are the parts of a followed by those of b |
| `FtpPath.ResolveOne` | main/net/ftp_server.cpp:148-170 | from any resolved directory: "." stays, ".." goes up by one name and stays at the root, and a name is appended if and only if it is legal, at most 15 are before it, and it fits |
| `FtpPath.UpMeans` | main/net/ftp_server.cpp:148-170 | the path before ".." is the path after it, a slash and a name |
| `FtpPath.InAndOut` | main/net/ftp_server.cpp:131-172 | a/c/.. and a/. resolve as a does, for every name c that can be entered there |
| `FtpPath.ResolveFailsIff` | main/net/ftp_server.cpp:131-172 | a path is refused if and only if the text to be walked is too long, or the components before some name lead to a directory below which it cannot be entered |
| `FtpResolver.ResolveInto` | main/net/ftp_server.cpp:131-172 | the one-buffer loop with its stack of marks returns what the fold over components says |
| `FtpSession.OperationsStayInside` | main/net/ftp_server.cpp:178-533 | over every sequence of commands and sessions, each file operation is made on a normalised path below the root that is not blocked, or on the temporary file of one, which is not blocked either; the source of a rename is such a path too |
| `FsGuard.TempBlockedIff` | main/core/fs_guard.h:10-18 | the temporary name of an upload contains a blocked name if and only if the path does |
| `FsGuard.IsBlocked` | main/core/fs_guard.h:10-18 | the loop finds whether any of the four names occurs in the path |
| `FtpSession.TempAllowed` | main/net/ftp_server.cpp:334-337 | the temporary name of a path in normal form is in normal form and not blocked |
| `FtpSession.LoggedInToOperate` | main/net/ftp_server.cpp:405-533 | what an event adds are operations of a session that is logged in, under its name, and for a transfer only to its own address |
| `FtpHistory.EveryOperationWasLetIn` | main/net/ftp_server.cpp:371-533 | for every file operation there is an earlier event at which its session gave the password stored for the configured name, the door not being closed, and from then to the operation there was no new name, no password that did not pass and no end of the session |
| `FtpHistory.LoginWasChecked` | main/net/ftp_server.cpp:371-425 | a session is logged in only after such an event, with nothing since that undoes it |
| `FtpHistory.EachSourceRenamedOnce` | main/net/ftp_server.cpp:504-525 | each rename takes the path that the last rename command of its own session was accepted for: between that command and the rename no rename command came, accepted or not |
| `FtpHistory.UploadsFinish` | main/net/ftp_server.cpp:328-369 | in every run the command that made a temporary file also moves it into place or removes it, unless it cannot be removed; at most the old file is removed in between |
| `FtpSession.ListenersAreClosed` | main/net/ftp_server.cpp:188-246 | at most one passive listener is open, and none without a session |
| `FtpHistory.SevenFailuresTakeFiveMinutes` | main/net/ftp_server.cpp:371-402 | over all sessions, seven failed password checks in a row span a pause of at least five minutes |
| `FtpServer.Connection.Handle` | main/net/ftp_server.cpp:405-533 | one line handled over the session's variables is one step of the machine the theorems are about |
| `FtpServer.Connection.Accept` | main/net/ftp_server.cpp:535-548 | a new session starts with everything forgotten |
| `FtpServer.Connection.DoPass` | main/net/ftp_server.cpp:371-402 | the password check with its limit in the session and its limit over all sessions, which starts after the delay; a password that passes against an old hash is stored anew |
| `FtpServer.Connection.OpenPasv` | main/net/ftp_server.cpp:214-246 | the old listener is closed before a new one is opened |
| `FtpServer.Connection.DataAccept` | main/net/ftp_server.cpp:192-212 | takes a data connection if and only if there is a listener and the caller is the session's peer; the listener is closed in any case |
| `FtpServer.Connection.Transfer` | main/net/ftp_server.cpp:248-369 | a transfer opens its file before it takes a data connection, and an upload that is not complete leaves the old file |
| `FtpServer.Connection.ReadArg` | main/net/ftp_server.cpp:178-185 | resolver and guard over their buffers give the path a command may use, if any |
| `FtpServer.Connection.RenameTo` | main/net/ftp_server.cpp:515-525 | the flag is consumed whether or not the rename goes through |
| `FtpSession.CtEq` | main/net/ftp_server.cpp:72-78 | the comparison without early exit is equality |
| `FtpSession.ParseLine` | main/net/ftp_server.cpp:406-414 | command word and argument of a line |
| `FtpCommands.LineMeans` | main/net/ftp_server.cpp:406-414 | a word of up to seven characters in any case, blanks, and an argument: the command is the word in capitals, and the argument what was written |
| `FtpCommands.UpperMeans` | main/net/ftp_server.cpp:409 | small letters become capitals, 32 places before them, and nothing else changes |
| `FtpCommands.PathArgMeans` | main/net/ftp_server.cpp:178-186 | the path an argument names can be used if and only if it resolves, is not blocked, and is not the root where that makes no sense |
| `FtpCommands.BlockedMeans` | main/core/fs_guard.h:10-18 | a path is blocked if and only if one of the four names stands anywhere in it |
| `FtpCommands.ContainsMeans` | main/core/fs_guard.h:10-18 | a name stands in a path if the path is something, the name and something |
| `FtpCommands.FlagsMean` | main/net/ftp_server.cpp:249-253 | flags before the path of a listing are passed over |
| `FtpCommands.FileCommandsMean` | main/net/ftp_server.cpp:474-504 | SIZE, DELE, MKD and RMD, in all their spellings, do exactly their one operation on the path named, if it can be used and the file system lets them, and change nothing else |
| `FtpCommands.SelectMeans` | main/net/ftp_server.cpp:505-514 | RNFR selects the path if it is there, and forgets any other selection |
| `FtpCommands.RenameMeans` | main/net/ftp_server.cpp:515-525 | RNTO renames exactly what was selected to the path named, if there is a selection, and forgets it in any case |
| `FtpCommands.DirectoryCommandsMean` | main/net/ftp_server.cpp:448-459 | CWD and CDUP change the directory to the argument, or one up, if and only if that can be used, is there and fits |
| `FtpCommands.PassiveMeans` | main/net/ftp_server.cpp:214-246 | PASV and EPSV put a new listener in the place of the old one, or leave none |
| `FtpCommands.AbortMeans` | main/net/ftp_server.cpp:526-528 | ABOR closes the listener and does nothing else |
| `FtpCommands.FetchMeans` | main/net/ftp_server.cpp:303-326 | RETR opens the file, sends it if the session's own client connects to a listener, and gives the listener up in any case |
| `FtpCommands.ListMeans` | main/net/ftp_server.cpp:249-301 | LIST and NLST do the same to the directory named behind the flags, or to the current one if there is none |
| `FtpCommands.StoreMeans` | main/net/ftp_server.cpp:328-369 | STOR writes to a temporary file beside the path; only if everything has come the old file goes and the temporary one takes its place, and in all other cases it is removed if it can be |
| `FtpCommands.OtherLinesTouchNothing` | main/net/ftp_server.cpp:405-533 | no other line of any session makes a file operation |
| `FtpCommands.LoginComesFirst` | main/net/ftp_server.cpp:417-447 | without a login no line makes one, and nothing but USER, PASS and QUIT has any effect |
| `FtpCommands.UserMeans` | main/net/ftp_server.cpp:423-428 | USER takes the login away and keeps the name cut to 39 characters |
| `FtpCommands.PassMeans` | main/net/ftp_server.cpp:371-402 | PASS logs in if and only if the password is right for the name given and no lock is on; the third failure of a session ends it, and the sixth in a row over all sessions starts a lock of five minutes |
| `FtpCommands.SessionsMean` | main/net/ftp_server.cpp:535-562 | a session starts without a login and at the root, and ends with QUIT or the connection, its listener closed |
| `SvcConfig.FileIsMap` | main/core/svc_cfg.cpp:46-123 | every file reached from none, through failing writes and renames too, is the canonical text of a map with unique keys, and a set is the map's update |
| `SvcConfig.GetAfterSet` | main/core/svc_cfg.cpp:60-123 | after a set the key has the new value if and only if the text still fits (otherwise none, even the old value is gone), an empty value removes it, and every other key reads as before |
| `SvcConfig.OldValueLost` | main/core/svc_cfg.cpp:84-123 | such a set: a value of 1021 characters for a key of one does not fit, and the old value is gone |
| `SvcConfig.OtherKeysStay` | main/core/svc_cfg.cpp:84-123 | however a set goes, another key reads as before if and only if it read as nothing or the file was not lost to a failed rename |
| `SvcConfig.OtherValueLost` | main/core/svc_cfg.cpp:84-123 | such a set: the rename fails and another key reads as nothing |
| `SvcConfig.GetMeans` | main/core/svc_cfg.cpp:60-82 | reading a key of a canonical file gives the map's value cut to the caller's buffer |
| `SvcConfig.RewrittenMeans` | main/core/svc_cfg.cpp:84-123 | rewriting a canonical file gives the canonical file of the changed map |
| `SvcConfig.SetPairMeans` | main/core/svc_cfg.cpp:84-123 | what the changed map holds for the key and for every other key |
| `SvcStore.Cutter.NextLine` | main/core/svc_cfg.cpp:46-54 | cutting the buffer in place yields the next line without its line end, and leaves the rest |
| `SvcStore.Cutter.LineHasKey` | main/core/svc_cfg.cpp:56-58 | true if and only if the line starts with the key and an equals sign |
| `SvcStore.Output.Put` | main/core/svc_cfg.cpp:107-112 | a line is appended with its newline if and only if it fits uncut |
| `SvcStore.Store.GetStr` | main/core/svc_cfg.cpp:60-82 | the reading loop returns the first value for the key, for any file contents |
| `SvcStore.Store.SetStr` | main/core/svc_cfg.cpp:84-123 | the file after a set, for any file contents and every way writing can fail |
| `SvcStore.ReachedFilesFit` | main/core/svc_cfg.cpp:36-43 | a file written only by this code is read back whole |
| `CronText.ReadItemIff` | main/core/cron.cpp:77-101 | the item reader accepts exactly the printed items: star, a, a-b, each with or without a step |
| `CronText.PrintedFieldMeans` | main/core/cron.cpp:68-104 | a printed list of items in range is accepted if and only if it is shorter than 40 characters, and denotes the union of the items |
| `CronText.SplitRender` | main/core/cron.cpp:111-125 | however the fields are spaced, the line is taken apart into them and the command |
| `CronText.SplitSound` | main/core/cron.cpp:111-125 | every line that is taken apart was spaced that way |
| `CronJob.MatchesMeansDue` | main/core/cron.cpp:207-215 | a compiled job matches a time if and only if its line is due then: day fields are alternatives only when neither begins with a star, 0 and 7 are Sunday |
| `CronJob.WrittenScheduleMeans` | main/core/cron.cpp:68-215 | a schedule written from items in range, in any spacing, is accepted and due exactly when its items say so |
| `CronMeaning.NumberMeans` | main/core/cron.cpp:77-101 | numbers are one to three decimal digits |
| `CronMeaning.ValMeans` | main/core/cron.cpp:77-101 | and are read in the decimal system |
| `CronMeaning.StarMeans` | main/core/cron.cpp:77-101 | a star is every value of the field's range |
| `CronMeaning.NumberMeansItself` | main/core/cron.cpp:77-101 | a number is that value, and refused outside the range |
| `CronMeaning.RangeMeans` | main/core/cron.cpp:77-101 | n-m is every value from n to m, and refused unless both are in the range and in order |
| `CronMeaning.StepMeans` | main/core/cron.cpp:77-101 | with /k: from the beginning of what stands before it every k-th value to its end, where a single number goes on to the end of the range |
| `CronMeaning.StepOfZeroIsRefused` | main/core/cron.cpp:77-101 | a step of zero is refused |
| `CronMeaning.OneItemMeans` | main/core/cron.cpp:68-104 | a field without commas is accepted if and only if it is a good item shorter than 40 characters, and denotes what the item does |
| `CronMeaning.ListMeans` | main/core/cron.cpp:68-104 | commas put items together, all of which must be good, and denote their union; empty items are passed over |
| `CronMeaning.SimpleLineMeans` | main/core/cron.cpp:111-215 | a line of five stars or numbers and a command is due if and only if its minute, hour and month allow the time and so do both days, or one of them if neither is a star; 7 is Sunday, too |
| `CronMeaning.TextsAreKept` | main/core/cron.cpp:136-137 | a job keeps its schedule with single blanks, cut to 47 characters, and its command cut to 95 |
| `CronJob.BitOfWithBit` | main/core/cron.cpp:101 | setting bit v and testing bit w by 64-bit shifts: set exactly for v and for what was set before |
| `CronParser.ParseLine` | main/core/cron.cpp:111-140 | for every line: accepted if and only if it splits and all five fields are in range, and then the five masks hold exactly the denoted values |
| `CronParser.ParseField` | main/core/cron.cpp:68-104 | for every field text: accepted if and only if it is short enough, not empty and every item is good; bit v is set if and only if some item has v |
| `CronParser.ParseItem` | main/core/cron.cpp:77-100 | cutting an item in place at slash and dash: accepted if and only if it is good, with first, last and step |
| `CronParser.AddRange` | main/core/cron.cpp:101 | the loop of shifts adds exactly a, a+step, ... up to b; every shift is below 64 |
| `CronParser.Token` | main/core/cron.cpp:75 | the tokenizer yields the next non-empty text between commas and leaves the rest |
| `CronParser.SplitLine` | main/core/cron.cpp:111-125 | the pointer walk over blanks and words returns the fields and the command |
| `CronParser.FoldSunday` | main/core/cron.cpp:132 | after folding bit 7 into bit 0 the mask answers for both spellings of Sunday |
| `CronTable.Table.Reload` | main/core/cron.cpp:142-179 | for any file contents the table becomes exactly the compiled jobs of the first 16 accepted lines of its first 2048 bytes, comments and bad lines skipped; without memory it stays as it is |
| `CronTable.Table.RunDue` | main/core/cron.cpp:232-252 | what is run for a minute is, slot by slot, the command of what the table holds there when its lock section comes, if that is due; the table may be exchanged between two sections |
| `CronTable.DueAcrossOne` | main/core/cron.cpp:232-252 | if it is not, these are the commands of exactly the lines that are due then, in the order of the file |
| `CronTable.LoadText` | main/core/cron.cpp:154-170 | the loop cuts, trims and compiles the lines in place until the text or the table ends |
| `CronTable.TrimLine` | main/core/cron.cpp:161-163 | cutting trailing blanks and returns in place and passing over leading ones |
| `CronMeaning.JobLineMeans` | main/core/cron.cpp:154-170 | blanks before a line and blanks and returns behind it do not matter; a line that begins with a hash is a comment |
| `CronMeaning.BlankLineMeans` | main/core/cron.cpp:154-170 | a blank line is no job |
| `CronMeaning.EntriesMean` | main/core/cron.cpp:154-170 | the jobs of a file are those of its lines in order, up to the room in the table |
| `CronTask.AtMostOneTask` | main/core/cron.cpp:254-303 | over all interleavings of the lock sections at most one task has not retired, it is the one in `s_task`, and while running is asked for there is one |
| `CronTask.StopRetires` | main/core/cron.cpp:269-275 | after a stop the worker can always go on to its check, and there it retires and no task is left |
| `CronTask.MinutesRun` | main/core/cron.cpp:254-268 | a task with a buffer runs a minute once for every stretch of looks at the clock that read it, and one without a buffer runs none |
| `CronTask.MinuteOnceIff` | main/core/cron.cpp:254-268 | a task runs no minute twice if and only if no minute it reads after the clock is set comes back after another one |
| `CronTask.EachMinuteOnceIff` | main/core/cron.cpp:254-293 | over a whole run, restarts included, no minute's jobs run twice if and only if that holds of every task with a buffer and no two of them read the same minute |
| `CronTask.NoMinuteTwice` | main/core/cron.cpp:254-268 | while the clock does not go back, no task runs a minute twice |
| `CronTask.MinuteTwiceOtherwise` | main/core/cron.cpp:254-293 | such runs: a clock set back past the minute before, and a task started within the minute an earlier one has run |
| `CronTask.Service.Start` | main/core/cron.cpp:282-293 | the lock section of a start, with and without a task that can be created |
| `CronTask.Service.Poll` | main/core/cron.cpp:258-267 | one look at the clock |
| `CronTask.PollMeans` | main/core/cron.cpp:258-267 | a look at the clock between 60 m and 60 m + 59 runs minute m if it is not the last one, the clock is past 1700000000, and there is a buffer |
| `CronTask.Service.Check` | main/core/cron.cpp:270-276 | the lock section of the loop: retires if and only if stopped |
| `DnsFilter.ReadQuestion` | main/net/router.cpp:276-295 | a question written from labels is read to their dotted join and its exact end, whatever follows (sections 3.1 and 4.1.2 of RFC 1035) |
| `DnsName.NameOfWire` | main/net/router.cpp:276-295 | a name on the wire is read back as its labels, with its size |
| `DnsName.WireOfName` | main/net/router.cpp:276-295 | every name that is accepted was written that way |
| `DnsName.SuffixMatchMeans` | main/net/router.cpp:260-266 | for dot-free labels a rule matches a name if and only if its labels, in any case, are the name's last labels |
| `DnsName.JoinInjective` | main/net/router.cpp:260-266 | dot-free labels can be read off their dotted join |
| `DnsFilter.HitsByLabels` | main/net/router.cpp:260-295 | for every question and every rule: the rule hits if and only if it is for the client, has a domain, and its labels are in any case the last labels of the name as cut to the buffer and up to a NUL |
| `DnsFilter.LongNameMissesRule` | main/net/router.cpp:260-295 | a rule can miss a name that is cut: two labels of 63 characters under `com`, with a rule for `com` |
| `DnsFilter.BlockedByLabels` | main/net/router.cpp:260-274 | for a name that fits its buffer and has no dots or NULs inside its labels, which rules hit is decided by its own labels and the client |
| `DnsFilter.IsBlocked` | main/net/router.cpp:268-274 | blocked if and only if some rule is for the client and matches the name |
| `DnsFilter.ParseQname` | main/net/router.cpp:276-295 | for arbitrary bytes parsing stays in bounds, accepts exactly well-formed questions, and leaves the dotted name cut to the buffer |
| `DnsFilter.SendNxdomain` | main/net/router.cpp:297-304 | the refusal re-parses to the same question and ends with it; it is one question and no records if and only if the query asked one question |
| `DnsFilter.ReplyFlagsMean` | main/net/router.cpp:298 | the flags of the refusal mark a response, keep operation and recursion bit and clear the rest |
| `DnsFilter.QuestionOfPrefix` | main/net/router.cpp:297-304 | cutting off what follows a question keeps the question |
| `Base32.DecodeOfEncode` | main/core/totp.cpp:15-36 | decoding undoes the encoding of section 6 of RFC 4648 for every byte string that fits, for any text that stands for the same letters |
| `Base32.EncodedComesBack` | main/core/totp.cpp:15-36 | the encoding itself decodes to the bytes that were encoded |
| `Base32.NoiseIsIgnored` | main/core/totp.cpp:21-25 | blanks, dashes, padding and foreign characters inserted anywhere change nothing |
| `Base32.CaseIsIgnored` | main/core/totp.cpp:23 | writing a letter small changes nothing |
| `Base32.SymbolValueFinds` | main/core/totp.cpp:24-26 | the value of a character is its place in the alphabet, if it has one |
| `Totp.DecodedIsNumber` | main/core/totp.cpp:15-36 | the decoded bytes are the number the letters write in base 32, without the bits beyond the last whole byte |
| `Totp.DecodedIsCut` | main/core/totp.cpp:31-33 | with less room the last bytes are missing |
| `Totp.EncodeIsNumber` | main/core/totp.cpp:15-36 | the encoding is the number the bytes write, with less than five zero bits behind it (section 6 of RFC 4648) |
| `Totp.Base32Decode` | main/core/totp.cpp:15-36 | the loop whose accumulator wraps at 32 bits and is never masked returns the specified bytes for every text and buffer size |
| `Totp.ShiftIn` | main/core/totp.cpp:27-28 | after the wrap, the accumulator modulo 2^bits is still the value of the pending bits |
| `Totp.TakeByte` | main/core/totp.cpp:29-33 | the byte taken is the eight oldest pending bits, and the rest stays pending |
| `Totp.CounterBytes` | main/core/totp.cpp:85-90 | the eight bytes filled from the end are the counter, most significant first |
| `Totp.BigEndianBack` | main/core/totp.cpp:85-90 | the counter can be read back from its bytes |
| `Totp.Truncate` | main/core/totp.cpp:95-100 | the number cut from a digest is its 31-bit big-endian word at the offset, modulo a million (section 5.3 of RFC 4226) |
| `Totp.TruncatedMeans` | main/core/totp.cpp:95-100 | the code is the number of the four bytes at the place the last half byte gives, without their first bit, modulo a million |
| `Totp.TruncatedExample` | main/core/totp.cpp:95-100 | the example of section 5.4 of RFC 4226 |
| `Totp.SixDigitsRead` | main/core/totp.cpp:102-103 | read as a decimal number the digits printed are the code |
| `Totp.GenerateCode` | main/core/totp.cpp:79-105 | the code for any keyed hash of 20 bytes, as six digits cut to the caller's buffer; none if and only if the secret decodes to nothing or the hash fails |
| `Vault.ReadsWhatWasAdded` | main/core/pwmgr.cpp:119-208 | over any run of unlock, lock, add and remove after one setup, reading entry i gives exactly the password of the i-th surviving add, if and only if the vault is open and it fits |
| `Vault.RunAgrees` | main/core/pwmgr.cpp:73-208 | the encrypted vault refines a plain list of passwords: same lock, same names, same number of entries |
| `Vault.Manager.Add` | main/core/pwmgr.cpp:177-198 | adds if and only if open, not full and at most 79 bytes; a failed add changes no visible entry although it writes into the slot behind the last |
| `Vault.AddsUpTo79` | main/core/pwmgr.cpp:119-124 | an entry has room for a password if and only if it is at most 79 bytes long |
| `Vault.Manager.Remove` | main/core/pwmgr.cpp:200-208 | the shifting loop removes exactly the entry |
| `Vault.Manager.Unlock` | main/core/pwmgr.cpp:73-98 | the stored text is taken apart in hex and the verifier compared without early exit: the vault is opened if and only if the text has its length, the password could be stretched and the verifier matches |
| `Vault.StoredReads` | main/core/pwmgr.cpp:52-79 | what a setup stores reads back as the salt and the verifier it was made of |
| `Vault.UnlockLeavesOpen` | main/core/pwmgr.cpp:73-98 | after a try to unlock the vault is open if and only if the password opens it or it was open before |
| `Vault.MasterOpens` | main/core/pwmgr.cpp:73-98 | in every run the password of the setup opens the vault whenever it can be stretched |
| `Vault.Manager.GetPassword` | main/core/pwmgr.cpp:143-175 | decryption and unpadding of the entry |
| `Secrets.UnpadOfPad` | main/core/pwmgr.cpp:119-167 | unpadding undoes padding (section 6.3 of RFC 5652), and padded text fills whole blocks |
| `Secrets.PadInPlace` | main/core/pwmgr.cpp:126-127 | the padding loop in the buffer gives the padded text |
| `Secrets.PadMeans` | main/core/pwmgr.cpp:119-127 | what is added are one to sixteen bytes, each their number |
| `Secrets.UnpadIff` | main/core/pwmgr.cpp:155-167 | a text is unpadded to p if and only if one to sixteen bytes follow p, the last of them their number |
| `Secrets.DecryptOfEncrypt` | main/core/config.cpp:180-250 | for every NUL-free text and any vector, decrypting the encrypted form gives the first 64 characters cut to the caller's buffer, if and only if the encrypted form had room; otherwise nothing |
| `Secrets.DecryptMeans` | main/core/config.cpp:215-250 | anybody's text of a vector and one to five whole blocks in hex is decrypted with that vector, and any other number of bytes gives nothing |
| `Secrets.DecryptRefuses` | main/core/config.cpp:215-250 | texts of other lengths give nothing |
| `Secrets.FromHexOfToHex` | main/core/config.cpp:164-177 | reading hex undoes printing it |
| `Secrets.ToHexMeans` | main/core/config.cpp:164-166 | each byte is two small hex digits, the high half first |
| `Secrets.PairMeans` | main/core/config.cpp:168-177 | what any two characters are read as: digits of either case, white space or a plus before a digit, a minus before a digit modulo 256, a digit before anything else, and zero otherwise |
| `Secrets.BytesToHex` | main/core/config.cpp:164-166 | the printing loop |
| `Secrets.HexToBytes` | main/core/config.cpp:168-177 | the reading loop accepts exactly even lengths that fit, and reads every pair as strtoul does |
| `Secrets.EncryptText` | main/core/config.cpp:180-212 | the buffer code equals the specified encryption |
| `Secrets.DecryptText` | main/core/config.cpp:215-250 | the buffer code equals the specified decryption |
| `ConfigMerge.MergeMeans` | main/core/config.cpp:574-586 | path by path on trees of any depth: what was there stays, what was missing and not blocked by a non-object comes from the defaults, and nothing else appears |
| `ConfigMerge.MergeKeeps` | main/core/config.cpp:574-586 | whatever a path led to still is there, for any defaults |
| `ConfigMerge.MergeIsIdempotent` | main/core/config.cpp:574-586 | merging the same defaults twice changes nothing more, if they repeat no name |
| `ConfigMerge.PartMergeMeans` | main/core/config.cpp:574-586 | merging a part of the defaults, path by path: what was there stays, and what was missing comes from the defaults or is still missing |
| `ConfigMerge.MergeTryIsPart` | main/core/config.cpp:574-586 | a merge in which some copies fail is the merge of a part of the defaults, and of all of them if none fails |
| `ConfigMerge.MergeTryMeans` | main/core/config.cpp:574-586 | such a merge path by path: what was there stays, what was missing comes from the defaults, or is still missing and some copy failed |
| `ConfigTree.DeepMerge` | main/core/config.cpp:574-586 | the recursive merge that changes a tree of linked items in place does exactly what the merge of values does, for every way copies may fail: the same tree, the same number of copies tried, with nothing shared and only new items added |
| `ConfigTree.PutItem` | main/core/config.cpp:576-584 | one default: appended as a copy if missing, passed over exactly if that copy gets no memory, merged in place if both are objects, otherwise dropped |
| `ConfigTree.Duplicate` | main/core/config.cpp:580 | a copy that gets its memory is new throughout and equal to the default |
| `ConfigMerge.RepeatedNamesChangeMore` | main/core/config.cpp:574-586 | a tree of defaults that repeats a name inside an object, which the firmware never builds: there a second merge changes more |

## Left out

- Drawing, menus, games, WiFi, BLE, MQTT, HTTP, sensors and power: no meaning apart from the hardware.
- Sockets, files, allocation and clocks: what they answer is a parameter; replies sent to a client are not modelled.
- AES, SHA-256, HMAC, PBKDF2 and signatures: arbitrary functions; invertibility of the cipher and agreement of keys for equal verifiers are hypotheses of the theorems that need them.
- AudioTasks.Globals.HandleAudioFrame: a whole call lets no other task in between its steps; each single access is a method of its own, proved for any run before it, steps of the others included.
- AudioTasks.Globals.PlaybackRound: likewise.
- Memory ordering: the shared variables of the audio ring are sequentially consistent.
- Gain, spectrum and tone detection: the gain is one exact saturating step on a whole buffer, the spectrum is not modelled.
- Terminal: one column for a byte and no line wrap; lines longer than the row are not modelled.
- LineSession.RunsMirror: names in listings and lines put into the history are printable, since the editor and FTP accept no other characters; those occupy no column. A command's output leaves no control sequence pending.
- LineSession.AfterKeepsMirrored: likewise.
- `csi_arg`: an unbounded number, so machine overflow of an absurdly long argument is not modelled.
- Directory listings for Tab: the editor takes any list of candidates, subject to the sizes of its slots; `LineComplete.TabExtendsFile` says which names are found among given entries, in any order. Reading the directory and asking what is one are not modelled.
- Tar: the walk over the file tree and the names given on the command line: the writer is offered what the walk meets, in its order. A directory name of 99 bytes ending in a slash is outside the entries that can be stored.
- FtpPath.InAndOut: while the text to be walked fits its buffer, like `FtpPath.ResolveComposes`.
- FirmwareTable.AppDecides: for tables that end within the first 0x8C00 bytes, which is all the code looks at.
- TarArchive.ExtractionOfArchive: assumes a device with room that refuses nothing; refusals and failing writes are covered by `TarTool.Extract` for arbitrary bytes and devices.
- TarFormat.HeaderReads: names of 1 to 99 bytes, the sizes the writer prints.
- FlashStream.Flash.StreamBegin: a begin that the driver refuses leaves the slot as it was; what the driver does to it then is not part of this model.
- FlashStream.Flash.StreamWrite: the bytes a refused write leaves are a beginning of its data, and what is written later comes behind them; `FlashStream.RefusedBytesGoUnnoticed` and the length in `FlashStream.RunMeaning` rest on that.
- FirmwareInstaller.Install: what a refused write leaves is a beginning of its data, of any length. The announced length is one number for the whole download, and progress reports are left out.
- FtpPath.ResolveComposes: while everything fits, since a longer joined text is refused outright.
- FtpSession: replies, transfer contents, the reload of the crontab after a change and the idle timeout are left out. That the flag of a rename survives other commands is kept as it is.
- FtpHistory.UploadsFinish: whether a file can be removed or moved is an answer of the world; a temporary file that cannot be removed stays, as in the code.
- CronTable: the conversion of a time to minute, hour and day, the log and what a command does are left out.
- CronTask: the jobs of a minute are one step.
- AtJobs: parsing of the time argument, and the output of `at -l`.
- ShellPipeline: trimming happens on values, not in place; what a command, a path check or a file write does is an arbitrary function of the world.
- ShellPipe.RunStages: a command reads its input before it writes its output.
- ConfigMerge: only objects have named fields, arrays are single values; a configuration file that is no object is not modelled.
- ConfigTree: the list of items is walked by recursion; how the JSON library searches and appends is not part of this model.
- ConfigMerge.MergeIsIdempotent: for defaults without repeated names, the exact statement for the ones the firmware builds; `ConfigMerge.RepeatedNamesChangeMore` shows that it can fail otherwise.
- Config save and load: not a round trip in the firmware, since loading never decrypts, so none is stated.
- Vault: one setup; a second one would leave older entries under the old key.
- Totp.Truncate: the word is built by sums of products instead of shifts and disjoint ors.
- DnsFilter: forwarding, the lookup of the client's address and the table of rules.
- Alias expansion, `watch`, scripts, restore points, notification and log rings, version comparison: not modelled.
