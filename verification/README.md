# ExpOS in Dafny

A model of the parts of the ExpOS kernel, its UEFI loader and its image builder that carry real
algorithms, with proofs of what they are for. Code that updates objects and buffers step by step is
modelled as classes, arrays and loops, each method proved against a specification written without
reference to the loop; code that only computes is modelled as functions with lemmas about them.

| file | what it models |
|---|---|
| `Sha256.dfy`, `Hmac.dfy` | the incremental SHA-256 hasher against FIPS 180-4, HMAC against RFC 2104, PBKDF2 against RFC 8018, the storage nonce's framing |
| `AudioQueue.dfy` | the two-bank playback queue, driven by API calls, polling and interrupts, against an automaton of what the sound hardware may see |
| `RiffWave.dfy`, `WaveDecoder.dfy` | the RIFF walk, the PCM samples, the resampler to 48 kHz stereo, and the WAV writer that is its inverse |
| `Calendar.dfy`, `DesktopClock.dfy` | the closed form of day counting against plain counting, and the desktop's local time |
| `ElfLoader.dfy` | validating the kernel's ELF segments, zeroing and copying them |
| `FatImage.dfy` | the FAT16 image builder, and a reader of FAT16 volumes that finds the file again |
| `Framebuffer.dfy`, `TextConsole.dfy` | the boot console: text, grid, pixels and damage |
| `BrowserTabs.dfy`, `BrowserHistory.dfy` | browser tabs and histories in fixed arrays, against lists, and those against histories that never forget |
| `UrlReference.dfy`, `LinkResolver.dfy` | the link resolver against the reference resolution of RFC 3986 |
| `JsonText.dfy`, `HtmlTags.dfy`, `Wikipedia.dfy` | decoding JSON text, cutting it into paragraphs, the page built from it and the tags of that page |
| `AppState.dfy`, `AppHost.dfy` | the app host: packages, tasks, and its versioned saved state |
| `Calculator.dfy` | the one-pass calculator against two-level precedence |
| `Factor.dfy` | trial-division factoring |
| `Bits.dfy`, `LittleEndian.dfy`, `Slices.dfy`, `Options.dfy` | machine words, byte order, slice writes, optional values |

Integers are unbounded and widths are written out where they matter (`Wrap64`, saturating counters,
signed 16-bit fields). Bytes are integers below 256, or characters in the text modules. What comes from
outside (interrupt status, whether the hardware accepts a buffer, whether a page loads, what the MP3
decoder produces, the clock's reading) is a parameter, so every statement holds for every answer.

## Where the code does not do what one might expect

Each of these is kept as the code has it, with the exact condition under which the expected law holds.

- **Console.** The panel's lower border is at pixel row 469, but the last text row reaches down to row 470,
  so the incrementally drawn screen equals a full redraw if and only if the text typed since enabling runs
  past 45 lines or its 45th line has at some time been full (`TextConsole.Console.MatchesRedraw`,
  `TextConsole.EnableAndWrite`, `TextConsole.FreshScreenDiffers`).
- **Desktop clock.** The year saturates at 0 and 65535, so the result is exact if and only if the moved
  minute lies in a year that sixteen bits hold; the hardware clock's years always do
  (`DesktopClock.AdjustedTime`).
- **FAT image.** An empty file's directory entry names cluster 4, which the allocation table leaves free;
  the entry's first cluster is allocated if and only if the file is not empty (`FatImage.FirstClusterAllocated`).
- **Calculator.** A trailing `*` or `/` loses the last term (`Calculator.TrailingOperator`).
- **JSON text.** A text that fills its buffer exactly is refused: decoding succeeds if and only if one byte
  is left over (`JsonText.DecodeOfPrinted`).
- **Links.** A reference with a scheme other than the three known ones, such as a mail address, is taken for a
  relative path, and a reference that starts with `//` fails on an `expos` page; the code agrees with RFC 3986
  on exactly the other references (`LinkResolver.AgreesWhenSupported`, `LinkResolver.MailAddress`).

## Model

| member | source | states |
|---|---|---|
| `Sha256Spec.PaddingIsFips` | kernel/src/crypto.rs:83-97 | for every length FIPS 180-4 admits, a padding satisfies section 5.1.1 (least number of zero bits, 64-bit length) if and only if it is the one the hasher appends |
| `Sha256Spec.HashOfPrefix` | kernel/src/crypto.rs:58-81 | the hash value after n blocks depends on those blocks alone, so it survives extending the message |
| `Sha256Stream.MessageSchedule` | kernel/src/crypto.rs:106-128 | the schedule array filled in place is the message schedule of FIPS 180-4 section 6.2.2 step 1 |
| `Sha256Stream.Sha256.Compress` | kernel/src/crypto.rs:106-152 | takes the hash value after n blocks to the hash value after n + 1 blocks of section 6.2.2, for every block |
| `Sha256Stream.Sha256.constructor` | kernel/src/crypto.rs:49-56 | a new hasher has absorbed the empty message |
| `Sha256Stream.Sha256.Update` | kernel/src/crypto.rs:58-81 | the hasher stands for its old message followed by the input: the state is the fold over all full blocks, the buffer exactly the unprocessed tail, the length counter the length modulo 2^64 |
| `Sha256Stream.Sha256.Finalize` | kernel/src/crypto.rs:83-104 | returns the digest of the whole message given so far, whichever of the two padding cases applies |
| `Sha256Stream.LastBlocks` | kernel/src/crypto.rs:83-97 | the padded message ends in one block or two, made of the tail, 0x80, zeros and the bit count |
| `Hmac.DigestParts` | kernel/src/crypto.rs:172-178 | hashing a prefix and any list of parts, one update each, gives the digest of their concatenation, for every way of cutting the input |
| `Hmac.HmacSha256` | kernel/src/crypto.rs:155-189 | equals RFC 2104 section 2 on the concatenation of the parts, for keys of every length |
| `Hmac.MakeKeyBlock` | kernel/src/crypto.rs:156-163 | a key longer than a block is hashed first, every key is extended with zeros to 64 bytes |
| `Hmac.Pbkdf2HmacSha256` | kernel/src/crypto.rs:196-209 | equals block T_1 of RFC 8018 section 5.2 for every round count, 0 counting as 1 |
| `Hmac.StorageNonce` | kernel/src/crypto.rs:366-378 | is the first 24 bytes of the HMAC of a label and three fixed-width fields |
| `Hmac.NonceTextIsInjective` | kernel/src/crypto.rs:372-374 | the hashed text determines the identifier, the generation and the domain |
| `AudioDevice.Conservation` | kernel/src/audio.rs:263-316 | in every run the hardware accepts, submissions are retirements plus the one that plays |
| `AudioDevice.ActiveBankIsNotWritten` | kernel/src/audio.rs:688-693 | between a submission and its retirement its bank is not written and nothing else is submitted |
| `AudioDevice.QueuedBankIsNotWritten` | kernel/src/audio.rs:688-711 | while a buffer waits its bank is not written, no other is queued or submitted, and it is what the queue yields |
| `AudioQueue.BanksAlternate` | kernel/src/audio.rs:688-693 | the n-th submission of a run uses bank n modulo 2 |
| `AudioQueue.DescriptorCount` | kernel/src/audio.rs:827-836 | succeeds exactly for 1 to 1048576 words, with the least number of 32768-word descriptors |
| `AudioQueue.BuildDescriptors` | kernel/src/audio.rs:764-786 | the descriptors tile the buffer in order without gap or overlap, each count fits 16 bits, only the last interrupts, the others are cleared |
| `AudioQueue.AudioState.constructor` | kernel/src/audio.rs:199-219 | a fresh state is valid for the empty run |
| `AudioQueue.AudioState.Stop` | kernel/src/audio.rs:245-261 | nothing plays, waits or is decoded afterwards, and the hardware has got its bank and its queue back |
| `AudioQueue.AudioState.SubmitSamples` | kernel/src/audio.rs:713-815 | either the hardware takes exactly this bank and frame count and it becomes the active one, or nothing plays and the bank is free |
| `AudioQueue.AudioState.AvailableBank` | kernel/src/audio.rs:688-693 | fails exactly when a buffer waits, and otherwise hands out a bank the hardware lets be written |
| `AudioQueue.AudioState.ScheduleSamples` | kernel/src/audio.rs:695-711 | queues behind a playing buffer, otherwise submits at once |
| `AudioQueue.AudioState.RetireActive` | kernel/src/audio.rs:277-300 | takes back the active bank; each counter moves exactly as the status bits say, saturating |
| `AudioQueue.AudioState.PlayPending` | kernel/src/audio.rs:301-315 | submits the waiting buffer; a success after a fault is a recovery |
| `AudioQueue.AudioState.ServiceInterrupts` | kernel/src/audio.rs:263-316 | without a status nothing changes; with one the active buffer is retired and a waiting one submitted, and recoveries count exactly the submissions after a fault |
| `AudioQueue.AudioState.ServiceMedia` | kernel/src/audio.rs:318-347 | without a track or a free bank nothing changes; otherwise a failed chunk is an error, an empty one ends a finished track, any other is scheduled in the free bank |
| `AudioQueue.AudioState.Poll` | kernel/src/audio.rs:523-528 | services interrupts and the track; a failing track stops everything |
| `AudioQueue.AudioState.PlayTrack` | kernel/src/audio.rs:572-600 | a track the store does not hold or cannot read changes nothing and names its error; success leaves the track loaded, and every later failure on a device leaves nothing playing, waiting or loaded |
| `AudioQueue.AudioState.PlayWave` | kernel/src/audio.rs:619-642 | success means the free bank holds the resampled frames of the file and a buffer of exactly that many, at most 524288, has just been submitted or queued; the queue is full exactly when a buffer waits behind one that has not finished, and every other failure of the file is the decoder's, with nothing written |
| `AudioQueue.AudioState.PlayTone` | kernel/src/audio.rs:644-686 | success means the free bank holds a square wave on both channels and a buffer of 48 frames per millisecond has just been submitted or queued, within the bank; an empty or too long tone and a full queue are told apart exactly |
| `AudioQueue.FillTone` | kernel/src/audio.rs:667-676 | every frame of the tone is high in the first half of its period and low in the second, the same on both channels, and nothing behind the tone is written |
| `AudioQueue.AudioState.HandleLegacyInterrupt` | kernel/src/audio.rs:464-482 | publishes the three acknowledged status bits and touches nothing else |
| `AudioQueue.AudioState.Initialize` | kernel/src/audio.rs:351-454 | a backend is adopted only when there is none yet |
| `AudioQueue.Perform` | kernel/src/audio.rs:245-686 | every step, whatever the outside world answers, keeps the invariant and leaves behind what its kind promises |
| `AudioQueue.ValidIsSound` | kernel/src/audio.rs:245-346 | the invariant gives the safety statement: an accepted run, a waiting buffer only behind a playing one in the other bank, conservation, alternation, ordered counters |
| `AudioQueue.Run` | kernel/src/audio.rs:245-686 | over every interleaving of play, stop, poll, refused submission and interrupt steps, every state on the way is safe |
| `Riff.SplitOfTile` | kernel/src/audio.rs:879-911 | a body tiled by padded chunks splits into exactly those chunks |
| `Riff.TileOfSplit` | kernel/src/audio.rs:879-911 | and a body that splits is tiled by its chunks, so exactly the tiled bodies are accepted |
| `Riff.Walk` | kernel/src/audio.rs:876-911 | the cursor loop terminates and finds what the chunk list holds: one format of at least 16 bytes, one data chunk, everything else skipped, a second of either an error |
| `Riff.UnknownChunkIsIgnored` | kernel/src/audio.rs:892-910 | a chunk that is neither format nor data changes nothing, wherever it stands |
| `Riff.DuplicateIsRejected` | kernel/src/audio.rs:892-909 | two format chunks, or two data chunks, are an error wherever they stand |
| `Resampler.SampleKeepsTopBytes` | kernel/src/audio.rs:1000-1016 | 16, 24 and 32-bit samples keep their two most significant bytes as a signed number; 8-bit samples are unsigned around 128 |
| `Resampler.Interpolate` | kernel/src/audio.rs:994-998 | the result lies between the two samples, so the narrowing to 16 bits loses nothing |
| `Resampler.InterpolationIsExact` | kernel/src/audio.rs:994-998 | the result is the point between the samples, off by less than one step and never past it |
| `Resampler.StereoReadsBack` | kernel/src/audio.rs:973-992 | interleaved signed 16-bit frames decode to the frames they were written from, left as left and right as right |
| `Resampler.PositionInside` | kernel/src/audio.rs:951-963 | every output frame stands inside the source, so the clamp of the current frame never acts |
| `Resampler.CountIsExact` | kernel/src/audio.rs:936-941 | with one frame more the position would be at or past the end |
| `Resampler.SameRateIsExact` | kernel/src/audio.rs:936-963 | at 48 kHz the output is the decoded input, frame by frame |
| `Resampler.Advance` | kernel/src/audio.rs:958-962 | the carry loop takes the exact position of one output frame to that of the next, with the fraction below 48000 |
| `Resampler.Resample` | kernel/src/audio.rs:949-963 | frame k of the output is the interpolation at source position k times the rate over 48000, for every k below the count, and nothing else is written |
| `WaveDecoder.ParseFile` | kernel/src/audio.rs:867-935 | returns the wave the file holds or the error of the first check that fails |
| `WaveDecoder.Decode` | kernel/src/audio.rs:867-971 | an error leaves the output untouched, a success describes the file and fills the output with its resampled frames, and the size limit decides between them |
| `WaveDecoder.ParseOfRiff` | kernel/src/audio.rs:868-875 | what stands behind the declared end does not matter |
| `WaveDecoder.UnknownChunkChangesNothing` | kernel/src/audio.rs:867-935 | inserting an unknown chunk anywhere, with the RIFF length fixed up, leaves the parsed wave unchanged |
| `WaveDecoder.WriteWave` | kernel/src/audio.rs:1037-1057 | the field-by-field writer produces a RIFF file of a format chunk and a data chunk |
| `WaveDecoder.FileReadsBack` | kernel/src/audio.rs:867-935 | parsing such a file gives exactly what checking its format and samples gives |
| `WaveDecoder.WriterReadsBack` | kernel/src/audio.rs:1037-1057 | decoding the writer's output recovers format and samples if and only if the format is supported and the samples are whole frames |
| `WaveDecoder.WriteAndDecode` | kernel/src/audio.rs:867-1057 | for any frames, writing them as a 16-bit stereo file at 48 kHz and decoding that file plays exactly those frames, or fails as too large and writes nothing |
| `Calendar.CivilIsCounted` | kernel/src/apps.rs:2673-2683 | the closed form equals counting days one year and one month at a time, for every date of every year |
| `Calendar.Epoch` | kernel/src/apps.rs:2673-2687 | 1970-01-01 is day 0 and a Thursday |
| `Calendar.NextDayIsOneMore` | kernel/src/apps.rs:2652-2687 | the successor of every date is one day and one weekday later, across months, years and leap days |
| `Calendar.CivilIsMonotone` | kernel/src/apps.rs:2673-2683 | later dates have larger day numbers |
| `Calendar.CivilIsInjective` | kernel/src/apps.rs:2673-2683 | different dates have different day numbers |
| `DesktopClock.DaysInDesktopMonth` | kernel/src/desktop.rs:11895-11904 | the desktop's month table agrees with the calendar for every month |
| `DesktopClock.StepBack` | kernel/src/desktop.rs:11911-11924 | one pass of the first carry loop is one day back, except on the first day of year 0 |
| `DesktopClock.StepOn` | kernel/src/desktop.rs:11925-11938 | one pass of the second carry loop is one day on, except on the last day of year 65535 |
| `DesktopClock.AdjustedTime` | kernel/src/desktop.rs:11906-11942 | the result is a real time; it is the clock's minute moved by exactly both offsets if and only if that minute is representable, and always for the years the hardware reports |
| `ElfLoader.CheckHeader` | boot/uefi/loader.c:129-134 | accepts exactly the 64-bit little-endian x86-64 executables whose program headers lie inside the file, without overflow |
| `ElfLoader.CheckSegment` | boot/uefi/loader.c:141-144 | accepts exactly the segments inside the file, identity mapped and inside 1 MiB to 1 GiB |
| `ElfLoader.Intersects` | boot/uefi/loader.c:148-150 | the interval comparison holds if and only if two segments share an address |
| `ElfLoader.MeetsEarlier` | boot/uefi/loader.c:146-152 | the inner loop finds a shared address with an earlier segment if and only if there is one; the 64-bit sums do not wrap |
| `ElfLoader.Widen` | boot/uefi/loader.c:154-156 | keeps the range the least page range around the loaded bytes |
| `ElfLoader.PassHeader` | boot/uefi/loader.c:138-157 | one pass extends everything established about the headers so far, or rejects for a stated reason |
| `ElfLoader.Validate` | boot/uefi/loader.c:129-158 | accepts exactly the files whose segments are safe, pairwise disjoint and hold the entry as a file byte of an executable segment; each error names a condition that fails |
| `ElfLoader.LoadKernel` | boot/uefi/loader.c:127-165 | on success memory is the image inside the least page range below 1 GiB and untouched outside; on any failure memory is untouched |
| `ElfLoader.CopySegments` | boot/uefi/loader.c:161-165 | copying header after header into zeroed memory gives, at every address, the last copy that covers it |
| `ElfLoader.SegmentIsLoaded` | boot/uefi/loader.c:129-165 | every loadable segment's memory is its file bytes and then zeros up to its memory size, wherever its header stands |
| `ElfLoader.NobodyWrites` | boot/uefi/loader.c:161-165 | memory that no segment claims is zero |
| `ElfLoader.OrderIsIrrelevant` | boot/uefi/loader.c:162-165 | two header tables with the same placements give the same byte at every address |
| `ElfLoader.BoundsContain` | boot/uefi/loader.c:154-156 | the page range of one table contains the least range of any table whose placements it has |
| `ElfLoader.SamePlacementsSameMemory` | boot/uefi/loader.c:127-165 | two acceptable files with the same placements reserve the same pages and leave the same memory |
| `ElfLoader.EntryIsCovered` | boot/uefi/loader.c:153-158 | the entry lies inside the reserved range |
| `FatImage.DirectoryEntry` | tools/make-efi-fat.py:27-40 | writes an entry that reads back as given and nothing else, or refuses a name that is not eleven bytes long and writes nothing |
| `FatImage.BuildTable` | tools/make-efi-fat.py:79-85 | every entry of the table is the link its cluster needs |
| `FatImage.WriteTables` | tools/make-efi-fat.py:79-88 | both copies of the table hold every link and nothing outside them changes |
| `FatImage.WriteBootSector` | tools/make-efi-fat.py:58-77 | the boot sector reads back as the volume's geometry, with every other field the builder sets |
| `FatImage.WriteDirectories` | tools/make-efi-fat.py:90-99 | root, EFI and BOOT list themselves, their parents and their one entry |
| `FatImage.Build` | tools/make-efi-fat.py:47-102 | fails exactly when the file needs more than 32620 clusters, and otherwise leaves geometry, both tables, directories and file data all intact |
| `FatImage.ChainReads` | tools/make-efi-fat.py:84-101 | from its k-th cluster on, the chain yields the file from its k-th kilobyte on |
| `FatImage.GenesisOpens` | tools/make-efi-fat.py:47-102 | looking up EFI, BOOT and BOOTX64.EFI and following either copy's chain to the directory size returns the input bytes |
| `FatImage.RegionsAreDisjoint` | tools/make-efi-fat.py:43-44 | boot sector, tables and root directory end before the first cluster, and clusters are disjoint and inside the image |
| `FatImage.FirstClusterAllocated` | tools/make-efi-fat.py:79-99 | the file's first cluster is allocated if and only if the file is not empty |
| `FatImage.MediaByteRepeats` | tools/make-efi-fat.py:67-80 | the low byte of the first table entry repeats the boot sector's media byte |
| `Framebuffer.Union` | kernel/src/framebuffer.rs:432-455 | the least region that contains both, as long as no coordinate needs the 32-bit saturation the code applies |
| `Framebuffer.Rect` | kernel/src/framebuffer.rs:1565-1595 | sets exactly the pixels of the region that are on the screen |
| `Framebuffer.Glyph` | kernel/src/framebuffer.rs:2197-2224 | sets exactly the pixels of the character's dots |
| `TextConsole.Console.DrawCell` | kernel/src/graphics_console.rs:59-67 | paints one cell, and only that |
| `TextConsole.Console.RedrawBody` | kernel/src/graphics_console.rs:87-102 | paints every pixel of the text area as the grid has it |
| `TextConsole.Console.NewLine` | kernel/src/graphics_console.rs:104-116 | adds an empty line to the document, scrolling exactly when the grid is full |
| `TextConsole.Console.WriteCharacter` | kernel/src/graphics_console.rs:118-138 | types the character into the document (wrap before a full line's next character, backspace within its line), keeps grid and screen in step, widens the painted part of the last row exactly as the 45th line grows, and every changed pixel lies in the returned damage |
| `TextConsole.Console.WriteStr` | kernel/src/graphics_console.rs:141-168 | types the whole string, reversed when it holds a Hebrew character, with the painted part of the last row as far as the 45th line has ever reached; the united damage covers every changed pixel; a disabled console changes nothing |
| `TextConsole.Console.Enable` | kernel/src/graphics_console.rs:172-189 | starts an empty document with its grid and the chrome under it |
| `TextConsole.Console.MatchesRedraw` | kernel/src/graphics_console.rs:47-102 | the screen of a text equals a full redraw if and only if the text runs past 45 lines or its 45th line has at some time been full |
| `TextConsole.EnableAndWrite` | kernel/src/graphics_console.rs:141-189 | so it is after enabling the console and writing any list of strings, decided by the typed text alone |
| `ConsoleText.ReachIsFull` | kernel/src/graphics_console.rs:118-138 | the widest the 45th line has ever been is 74 if and only if it has been full after some part of the text |
| `TextConsole.FreshScreenDiffers` | kernel/src/graphics_console.rs:55-56 | right after enabling, a pixel of the last text row shows the background |
| `ConsoleText.VisibleNewLine` | kernel/src/graphics_console.rs:104-116 | the last 45 lines of a longer document are the old ones moved up by one |
| `ConsoleText.VisibleEdit` | kernel/src/graphics_console.rs:118-138 | editing the current line changes its row and no other |
| `BrowserTabs.Push` | kernel/src/desktop.rs:3997-4017 | cutting, shifting and appending in the fixed arrays leaves exactly the last 12 of the history up to the cursor plus the new address |
| `BrowserTabs.Browser.SetDocument` | kernel/src/desktop.rs:3992-4025 | records the address in the active tab unless the load is locked, and always releases the lock |
| `BrowserTabs.Browser.HistoryMove` | kernel/src/desktop.rs:4050-4068 | moves the cursor one entry inside the history, asks for that entry's address, and changes no history |
| `BrowserTabs.Browser.OpenTab` | kernel/src/desktop.rs:4070-4089 | adds a home tab and makes it active, unless six are open |
| `BrowserTabs.Browser.SwitchTab` | kernel/src/desktop.rs:4091-4114 | keeps the old tab's scroll and shows the other one where it was |
| `BrowserTabs.Browser.CloseTab` | kernel/src/desktop.rs:4121-4156 | removes one tab from the list, or sends the only one home, and shows the tab that is then active |
| `BrowserTabs.Browser.ReloadPage` | kernel/src/desktop.rs:4254-4261 | loads again without recording |
| `BrowserTabs.Browser.ScrollPage` | kernel/src/desktop.rs:5964-5991 | moves the page and the active tab's remembered place alike, within 0 to 8192 |
| `BrowserTabs.RunSteps` | kernel/src/desktop.rs:3992-4156 | every run of the arrays is the run of the list model, in which 1 to 6 tabs are open, the active one is in range and every cursor lies in a history of at most 12 |
| `BrowserHistory.RecordKeepsEnd` | kernel/src/desktop.rs:3997-4017 | a load keeps the bounded history the end of the history that never forgets, seen from the same entry |
| `BrowserHistory.TargetKeepsEnd` | kernel/src/desktop.rs:4050-4068 | back and forward go to the same entry of both, and back stops exactly where the history has been forgotten |
| `BrowserHistory.RunKeepsEnds` | kernel/src/desktop.rs:3992-4156 | over every run of loads, moves, reloads, scrolls and tab changes, every tab's history is the part within reach of one that never forgets |
| `BrowserSession.OtherTabsUntouched` | kernel/src/desktop.rs:3992-4156 | no step changes the history or the place of a tab that is neither active nor closed by it |
| `BrowserSession.BackThenForward` | kernel/src/desktop.rs:4050-4068 | back and forward are inverse and change no history, whether or not the pages load |
| `BrowserSession.SwitchThereAndBack` | kernel/src/desktop.rs:4091-4114 | switching away and back returns to the same scroll, and to the same entry of every history |
| `BrowserSession.CloseKeepsActive` | kernel/src/desktop.rs:4121-4156 | closing another tab leaves the same tab active, on the same entry |
| `BrowserSession.NewTabThenClose` | kernel/src/desktop.rs:4070-4156 | a new tab that is closed again leaves every history as it was |
| `LinkResolver.ResolveBrowserLink` | kernel/src/desktop.rs:12901-12976 | for a well-formed base and a supported target the buffer starts with the reference resolved by RFC 3986 and is otherwise untouched; it fails for want of room exactly when the text is longer than the buffer, and then writes nothing |
| `LinkResolver.JoinBrowserUrl` | kernel/src/desktop.rs:12986-12994 | writes both parts one after the other, or nothing when they do not fit |
| `LinkResolver.Cuts` | kernel/src/desktop.rs:12933-12943 | the searches of the code find the component boundaries of Appendix B on every well-formed base |
| `LinkResolver.AgreesWhenSupported` | kernel/src/desktop.rs:12901-12976 | the text is the one of RFC 3986 section 5.2.2 without dot-segment removal (a bare query on an empty path gaining a slash) if and only if the reference is relative or one of the three schemes, with an http or https base for one that names its authority |
| `LinkResolver.ResultComponents` | kernel/src/desktop.rs:12901-12976 | the result's scheme, authority, path, query and fragment are those of section 5.2.2, so a relative reference keeps the base's scheme and authority |
| `LinkResolver.MailAddress` | kernel/src/desktop.rs:12933-12975 | every mail address is resolved wrongly against every well-formed base |
| `JsonText.DecodeJsonString` | kernel/src/desktop.rs:12640-12675 | the loop computes the decoding of the items up to the closing quote |
| `JsonText.DecodeOfPrinted` | kernel/src/desktop.rs:12640-12675 | every printed list of bytes and escapes decodes to its text if and only if the text leaves room in the buffer |
| `JsonText.ItemsOfDecoded` | kernel/src/desktop.rs:12640-12675 | whatever decodes is the print of such a list, and the decoded text is its text |
| `JsonText.DecodedHasNoMarkup` | kernel/src/desktop.rs:12648-12668 | decoded text never contains `<`, `>` or `&` |
| `Paragraphs.FindSplit` | kernel/src/desktop.rs:12577-12586 | the end of a paragraph: all that is left up to 470 bytes, else the last blank among the next 470, else 470; zero only on a blank |
| `Paragraphs.Split` | kernel/src/desktop.rs:12575-12594 | terminates and cuts the text into such paragraphs, with only blanks between them |
| `Paragraphs.CutIsUnique` | kernel/src/desktop.rs:12575-12594 | there is only one way to cut a text so |
| `Paragraphs.WordsStayWhole` | kernel/src/desktop.rs:12575-12594 | no word of at most 470 bytes is cut |
| `Paragraphs.NothingElseDropped` | kernel/src/desktop.rs:12575-12594 | every character that is not a blank is in a paragraph |
| `Wikipedia.FindBytes` | kernel/src/desktop.rs:12699-12707 | the first place where the needle stands, or none |
| `Wikipedia.JsonStringField` | kernel/src/desktop.rs:12677-12687 | the decoded string behind the first occurrence of the field's name, or none |
| `Wikipedia.FieldHasNoMarkup` | kernel/src/desktop.rs:12677-12687 | a field's text has no markup and leaves room in its buffer |
| `Wikipedia.WriteParts` | kernel/src/desktop.rs:12689-12697 | the parts one after another, failing exactly when their total exceeds the buffer |
| `Wikipedia.PageStarts` | kernel/src/desktop.rs:12564-12574 | the page starts with the heading that holds the title, and the description below it |
| `Wikipedia.TagsAreTheTemplates` | kernel/src/desktop.rs:12557-12601 | texts without markup leave a page whose list of tags, each with its name and attributes, is the template's, with one pair of paragraph tags per paragraph |
| `Wikipedia.WikipediaDocument` | kernel/src/desktop.rs:12557-12601 | fails exactly when the title or the extract is missing or the page does not fit; the page is the template around title, description and paragraphs, every tag in it is closed, and its list of tags is the template's |
| `AppState.RestoredIsValid` | kernel/src/apps.rs:626-753 | every byte string restores to a state in which an active app is installed when any is, and every selection, length and setting is in range |
| `AppState.RestoreOfEncoding` | kernel/src/apps.rs:561-753 | restoring an encoding, with anything behind it, gives every durable field back |
| `AppState.RestoreOfFirstVersion` | kernel/src/apps.rs:626-643 | a first-version file restores its packages, palette, counter and canvas, and nothing else |
| `AppState.RestoreOfSecondVersion` | kernel/src/apps.rs:644-702 | a second-version file restores everything up to the weather reading, with coordinates and forecast as in a new host |
| `AppState.BitOfSet` | kernel/src/apps.rs:450 | setting a package's bit changes that package and no other |
| `AppState.BitOfClear` | kernel/src/apps.rs:461 | clearing a package's bit changes that package and no other |
| `AppHost.NativeApps.constructor` | kernel/src/apps.rs:329-386 | a new host has nothing installed, no task and nothing typed |
| `AppHost.NativeApps.Install` | kernel/src/apps.rs:445-455 | adds exactly that package and makes it active; a number past the last package changes nothing |
| `AppHost.NativeApps.Uninstall` | kernel/src/apps.rs:457-469 | removes exactly that package; if it was active, the first installed one becomes active |
| `AppHost.NativeApps.HandleTasksKey` | kernel/src/apps.rs:1063-1107 | every key does to the fixed task array what it does to the list of tasks, and touches no other durable field |
| `AppHost.CloseGap` | kernel/src/apps.rs:1089-1094 | deleting moves the later tasks down by one and empties the last slot |
| `TaskBoard.TypedTaskIsAdded` | kernel/src/apps.rs:1071-1103 | typing a text that fits and pressing Enter appends a task with exactly that text |
| `TaskBoard.AddThenErase` | kernel/src/apps.rs:1071-1097 | erasing right after adding takes the added task back |
| `TaskBoard.MarkTwice` | kernel/src/apps.rs:1082-1085 | marking a task twice changes nothing |
| `AppHost.NativeApps.EncodeState` | kernel/src/apps.rs:561-624 | the buffer holds the 388 bytes of the encoding and then zeros |
| `AppHost.RestoreState` | kernel/src/apps.rs:626-753 | reads only inside the bytes, for every version and every truncation, and gives a valid host without typed input |
| `AppHost.SaveAndRestore` | kernel/src/apps.rs:561-753 | a restored host has every durable field of the saved one |
| `AppHost.RunThenSave` | kernel/src/apps.rs:445-753 | after any run of installs, uninstalls and task keys from a new host, saving and restoring gives exactly the same state, with the packages and tasks the run makes |
| `Calculator.Evaluate` | kernel/src/apps.rs:2334-2376 | one pass over five accumulators gives, on every well-formed expression, the two-level precedence value with saturating arithmetic and division by zero leaving the term |
| `Calculator.FeedTerm` | kernel/src/apps.rs:2355-2372 | once a product is read, its value waits to be combined |
| `Calculator.EvaluatesToMeaning` | kernel/src/apps.rs:2334-2376 | whatever else stands between its characters, an expression evaluates to its meaning |
| `Calculator.DeletingOthers` | kernel/src/apps.rs:2349-2354 | deleting every character that is neither digit nor operator changes no result, for any input |
| `Calculator.TrailingOperator` | kernel/src/apps.rs:2355-2375 | a trailing sign changes nothing, a trailing `*` or `/` loses the last term |
| `Factor.Factor` | kernel/src/compat.rs:115-133 | for every 64-bit number from 2 on the printed list is non-decreasing, all prime and multiplies to the input, without overflow; otherwise the usage text |
| `Factor.DivideOut` | kernel/src/compat.rs:123-126 | printing a divisor as often as it divides keeps the product and leaves a number it does not divide |
| `Factor.SkipEven` | kernel/src/compat.rs:127 | stepping over the even candidates misses no divisor |
| `Factor.LeftoverIsPrime` | kernel/src/compat.rs:122-131 | once the divisor has passed the square root of what is left, that is prime |

## Left out

- Port I/O, MMIO, PCI scanning, DMA reset polling and the memory fences around them; what they answer is a parameter.
- Argon2, XChaCha20-Poly1305, random material, secret wiping and constant-time comparison.
- MP3 decoding and the HDA and VirtIO sound drivers, which appear as chunks, acceptances and status bits; the checks of bank addresses against 4 GiB are part of the acceptance.
- Sound volume and the software gain's arithmetic, which rewrites a bank just before the VirtIO device takes it; the memory of the two banks is a buffer handed in for the free one.
- The reading of the media store, whose answer is a parameter.
- Byte and pixel formats of the framebuffer, stride and page flipping, font tables and styles (a font is any function from characters to dots).
- TextConsole.Console.Enable: the screen is the 640 by 480 one, and the header's title and subtitle, which lie outside the text area, are not drawn.
- The UEFI hand-off behind the copied segments and the page allocator, whose success is a parameter.
- Reading the command line and files in the image builder.
- Browser tab titles, bookmarks, find-in-page and the fetching of pages; a page loads at once or not at all, and a truncated address that is not valid UTF-8 is kept as its bytes.
- LinkResolver.AgreesWhenSupported: dot segments are not removed, as in the code, so it is section 5.2.2 without section 5.2.4.
- Wikipedia search results, URL building and the network.
- Timers, the stopwatch, typed input of the other apps, notices, the persistence generation counter and the flag that asks for a location lookup, none of which is saved.
- AppState.RestoreOfEncoding: a label keeps its text but not what its buffer holds behind the text, which the code writes out and does not read back.
- Calendar months shifted by an offset, date parsing, JSON structure checking, drawing, settings tables and command dispatch: large, with only one-branch facts.
- Argument parsing of `factor`.
